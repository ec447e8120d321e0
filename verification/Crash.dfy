/** The journal's claim, end to end: stop after any device write, or fail and go on; mount, and look. */
module CrashSafety {
  import opened Words
  import opened Blocks
  import opened Superblocks
  import opened CacheModel
  import opened PageCache
  import opened Journal
  import opened Recovery
  import opened Ledger
  import opened Volumes
  import opened Mounting
  import opened Tearing

  /** The mark of one state a volume's device has been in. */
  ghost function MarkAt(v: Volume, i: nat): Mark
    requires v.Valid() && v.book.base <= i < |v.cache.store.history|
    reads v, v.cache, v.cache.store
  {
    v.book.marks[i - v.book.base]
  }

  /**
   Whatever a volume has done, stopping the machine after any device write it made
   leaves a disk that still has its superblock and mounts to the state that write
   is marked with: the last durable one, or the one being committed once the commit
   block had landed. The one exception is a disk that commits over another payload
   than its header was committed over; on a volume that knows its headers that is
   two payloads with one checksum, and a steady one has no such disk.
   */
  lemma EveryStopRecovers(v: Volume, i: nat)
    requires v.Valid() && v.book.base <= i < |v.cache.store.history|
    ensures var d, s := v.cache.store.history[i], MarkAt(v, i).stand;
      && Sane(v.sb, |d|) && Stands(v.sb, d, s) && ReadHead(d[0], |d|) == Ok(v.sb)
      && (!Forged(v.sb, d, s.origin) ==> RecoversTo(v.sb, d, s))
      && (v.book.known && Forged(v.sb, d, s.origin) ==>
            s.origin.Known? && Collides(s.origin.head, s.origin.payload, Payload(v.sb, d, Count(d[v.sb.journalStart]))))
      && (v.book.known ==> s.origin.Known?)
      && (v.Steady() ==> Upright(v.sb, d, s.origin))
  {
    hide ReadHead, Sane, Calm, Holds, Ordered, Upright, RecoversTo, Forged, PhaseOwned, Genuine, Traced, Committed, Collides;
    var d, s := v.cache.store.history[i], MarkAt(v, i).stand;
    assert Stands(v.sb, d, s) && Owned(s, v.book.root, v.book.known);
    if v.book.known && Forged(v.sb, d, s.origin) {
      ForgedCollides(v.sb, d, s);
    }
  }

  /** A later stop never loses what an earlier one had. */
  lemma StopsAdvance(v: Volume, i: nat, j: nat)
    requires v.Valid() && v.book.base <= i <= j < |v.cache.store.history|
    ensures Before(MarkAt(v, i), MarkAt(v, j))
  {
    hide ReadHead, Sane, Calm, Stands, Holds, PhaseOwned, Owned, Upright;
  }

  /** The two agree on every block outside the log and not in `except`. */
  ghost predicate Agrees(sb: Superblock, d: Disk, e: Disk, except: set<nat>) {
    |d| == |e| && forall b | 0 <= b < |d| && !InLog(sb, b) && b !in except :: d[b] == e[b]
  }

  /** A reader of `view` sees the state everywhere outside the log and the loose blocks. */
  ghost predicate Shows(sb: Superblock, view: Disk, s: Stand) {
    Agrees(sb, view, s.state, s.loose)
  }

  /** A volume mounted on `device` that shows the marked state. */
  ghost predicate Resumed(v: Volume, sb: Superblock, device: Device, s: Stand)
    reads v, v.cache, v.cache.store
  {
    v.Valid() && v.sb == sb && v.cache.store == device && Shows(sb, v.cache.View(), s)
  }

  /**
   Where a new machine may start from on a disk that stands: the disk itself, as loose
   as it was if its header announces a transaction, and with nothing loose otherwise.
   */
  ghost function FromDisk(sb: Superblock, d: Disk, s: Stand): Stand
    requires Sane(sb, |d|)
  {
    if Announces(d[sb.journalStart], sb.journalBlocks) then s.(state := d) else Stand(d, {}, Known(d[sb.journalStart], []))
  }

  /** A volume that has only just been mounted, with nothing loose. */
  ghost predicate Pristine(v: Volume)
    requires v.cache.Valid()
    reads v, v.cache, v.cache.store
  {
    && v.book.txn == 0 && v.book.phase.Building? && v.book.marks == [Mark(0, v.book.phase.now)]
    && v.book.phase.now.state == v.cache.View() && v.book.phase.now.loose == {}
  }

  /** A disk that stands and is not forged can be mounted as it is. */
  lemma StoodMounts(sb: Superblock, d: Disk, s: Stand)
    requires Stands(sb, d, s) && !Forged(sb, d, s.origin) && ReadHead(d[0], |d|) == Ok(sb)
    ensures Mountable(d, d, {}, FromDisk(sb, d, s)) && Recovered(sb, d).Ok? && Shows(sb, Recovered(sb, d).value, s)
  {
    hide ReadHead, Replay, Sum, At, Final, Announces;
    if Committed(sb, d).None? {
      assert Recovered(sb, d) == Ok(d);
      FromDiskRests(sb, d, s);
    }
  }

  lemma FromDiskRests(sb: Superblock, d: Disk, s: Stand)
    requires Stands(sb, d, s) && Recovered(sb, d) == Ok(d) && RecoversTo(sb, d, s)
    ensures Builds(sb, d, d, {}, FromDisk(sb, d, s))
  {
    hide Recovered, Contained, Forged, Sum, At, Homes, Last;
    if s.origin.Known? && Announces(s.origin.head, sb.journalBlocks) {
      var homes := Homes(s.origin.head);
      forall i | 0 <= i < |homes| && homes[i] !in s.loose
        ensures homes[i] < |d| && d[homes[i]] == s.state[homes[i]]
      {
        assert !InLog(sb, homes[i]);
      }
    }
  }

  /** On a disk that is upright a new machine starts with nothing loose. */
  lemma UprightStarts(sb: Superblock, d: Disk, s: Stand, view: Disk)
    requires Sane(sb, |d|) && Upright(sb, d, s.origin) && Recovered(sb, d) == Ok(view)
    ensures Start(sb, d, view, FromDisk(sb, d, s)).state == view && Start(sb, d, view, FromDisk(sb, d, s)).loose == {}
  {
    hide Sum, At, Replay, Announces;
  }

  /** What a disk that is upright recovers to announces nothing. */
  lemma UprightRecovers(sb: Superblock, d: Disk, o: Origin)
    requires Sane(sb, |d|) && Upright(sb, d, o) && Recovered(sb, d).Ok?
    ensures Silent(sb, Recovered(sb, d).value, Recovered(sb, d).value)
  {
    hide Sum, At, Replay;
    ZeroAnnouncesNothing();
  }

  /** Each disk from `base` on stands there; and if `steady`, none is forged. */
  ghost predicate AllStand(sb: Superblock, h: seq<Disk>, base: nat, s: Stand, steady: bool) {
    forall k | base <= k < |h| :: Sane(sb, |h[k]|) && Stands(sb, h[k], s) && (steady ==> Upright(sb, h[k], s.origin))
  }

  lemma StandsSized(sb: Superblock, d: Disk, s: Stand)
    requires Stands(sb, d, s)
    ensures Sane(sb, |d|) && |s.state| == |d|
  {
  }

  /** A new machine passes only through disks that stand where the one it was given does. */
  lemma RebootStands(sb: Superblock, d: Disk, s: Stand, h: seq<Disk>)
    requires Stands(sb, d, s) && !Forged(sb, d, s.origin) && Passed(sb, d, d, h, 0, FromDisk(sb, d, s))
    ensures AllStand(sb, h, 0, s, Upright(sb, d, s.origin))
  {
    hide Stands, Committed, Recovered, Contained, Upright, OnTheWay, Forged;
    StandsSized(sb, d, s);
    forall k | 0 <= k < |h|
      ensures Sane(sb, |h[k]|) && Stands(sb, h[k], s) && (Upright(sb, d, s.origin) ==> Upright(sb, h[k], s.origin))
    {
      assert OnTheWay(sb, d, d, h[k]);
      if Committed(sb, d).Some? {
        ReplayedStands(sb, d, s, h[k]);
      } else {
        NothingReplayed(sb, d, h[k]);
      }
      StandsSized(sb, h[k], s);
    }
  }

  lemma ReplayedStands(sb: Superblock, d: Disk, s: Stand, e: Disk)
    requires Stands(sb, d, s) && !Forged(sb, d, s.origin) && Committed(sb, d).Some? && OnTheWay(sb, d, d, e)
    ensures Stands(sb, e, s) && Upright(sb, e, s.origin)
  {
    hide Committed, Recovered, Contained, OnTheWay, Genuine, Announces, Payload;
    NothingAdrift(sb, d);
    OnTheWayRecovers(sb, d, d, e);
    RecoveredRoot(sb, d);
    RecoveredRoot(sb, e);
    if Recovered(sb, d) == Ok(e) {
      RecoveredClears(sb, d);
      ZeroAnnouncesNothing();
      NothingAnnounced(sb, e, s.origin);
    } else {
      SameLogCommits(sb, d, e);
      SamePayload(sb, d, e);
    }
  }

  lemma NothingAdrift(sb: Superblock, d: Disk)
    requires Sane(sb, |d|)
    ensures Adrift(sb, d, d) == {} && SameLog(sb, d, d)
  {
  }

  lemma RecoveredClears(sb: Superblock, d: Disk)
    requires Sane(sb, |d|) && Committed(sb, d).Some? && Recovered(sb, d).Ok?
    ensures |Recovered(sb, d).value| == |d| && Recovered(sb, d).value[sb.journalStart] == ZERO
  {
    hide Committed, Replay;
  }

  lemma SamePayload(sb: Superblock, d: Disk, e: Disk)
    requires Sane(sb, |d|) && |e| == |d| && SameLog(sb, d, e) && Committed(sb, d).Some?
    ensures e[sb.journalStart] == d[sb.journalStart]
    ensures Payload(sb, e, Count(d[sb.journalStart])) == Payload(sb, d, Count(d[sb.journalStart]))
  {
    hide Committed;
  }

  /** A new machine mounts a disk that stands and is not forged. */
  method Reboot(ghost sb: Superblock, disk: Disk, ghost s: Stand, frames: nat) returns (r: Result<(Volume, nat), FsError>, device: Device)
    requires Stands(sb, disk, s) && !Forged(sb, disk, s.origin) && ReadHead(disk[0], |disk|) == Ok(sb)
    requires |disk| < U32 && MIN_FRAMES <= frames <= MAX_FRAMES
    ensures fresh(device) && [disk] <= device.history && (device.faults == 0 ==> r.Ok?)
    ensures r.Ok? ==> fresh(r.value.0) && fresh(r.value.0.cache) && Resumed(r.value.0, sb, device, s)
                      && (s.origin.Known? ==> r.value.0.book.known) && r.value.0.book.base == |device.history| - 1
                      && Free(r.value.0.cache.slots) && Recovered(sb, disk) == Ok(r.value.0.cache.View())
    ensures AllStand(sb, device.history, 0, s, Upright(sb, disk, s.origin))
    ensures r.Ok? && Upright(sb, disk, s.origin) ==> Pristine(r.value.0) && (!device.refused ==> r.value.0.Steady())
  {
    hide ReadHead, Secure, Coherent, Timed, Recovered, Contained, Committed, Mountable, Stands, Forged, Upright, RecoversTo,
      Passed, Silent, Shows, Builds, Genuine, CacheModel.View, Dirty, Announces, AllStand;
    StoodMounts(sb, disk, s);
    device := new Device(disk);
    var cache := new Cache(frames, device);
    r := Mount(cache, FromDisk(sb, disk, s));
    RebootStands(sb, disk, s, device.history);
    if r.Ok? {
      if Upright(sb, disk, s.origin) {
        ShowsDevice(cache);
        UprightStarts(sb, disk, s, cache.View());
        UprightRecovers(sb, disk, s.origin);
      }
    }
  }

  /**
   The machine stops after device write `i`; a new machine mounts that disk. If its
   device does not fail it mounts, and everything outside the log and the loose
   blocks is the state the stop was marked with; and so it is of a third machine given
   any disk the second passed through while it mounted. What was known of headers still
   is, and a steady volume is followed by a steady one with nothing loose.
   */
  method Restart(v: Volume, ghost i: nat, ghost s: Stand, disk: Disk, frames: nat) returns (r: Result<(Volume, nat), FsError>, device: Device)
    requires v.Valid() && v.book.base <= i < |v.cache.store.history| && MIN_FRAMES <= frames <= MAX_FRAMES
    requires disk == v.cache.store.history[i] && s == MarkAt(v, i).stand && Sane(v.sb, |disk|) && !Forged(v.sb, disk, s.origin)
    ensures fresh(device) && [disk] <= device.history && (device.faults == 0 ==> r.Ok?)
    ensures r.Ok? ==> fresh(r.value.0) && fresh(r.value.0.cache) && Resumed(r.value.0, v.sb, device, s)
                      && (v.book.known ==> r.value.0.book.known) && r.value.0.book.base == |device.history| - 1
                      && Free(r.value.0.cache.slots)
                      && (v.Steady() && !device.refused ==> r.value.0.Steady()) && (v.Steady() ==> Pristine(r.value.0))
    ensures AllStand(v.sb, device.history, 0, s, v.Steady())
  {
    hide ReadHead, Secure, Coherent, Timed, Stands, Forged, Upright, Genuine, Collides, RecoversTo, Recovered;
    EveryStopRecovers(v, i);
    r, device := Reboot(v.sb, disk, s, frames);
  }

  /** Where a disk that is not forged stands, whatever it came from: it recovers to this, and to all of it. */
  ghost function FirstStand(sb: Superblock, d: Disk): Stand
    requires Sane(sb, |d|)
  {
    var head := d[sb.journalStart];
    Stand(if Recovered(sb, d).Ok? then Recovered(sb, d).value else d, {},
          Known(head, if Committed(sb, d).Some? then Payload(sb, d, Count(head)) else []))
  }

  lemma FirstStands(sb: Superblock, d: Disk, s: Stand)
    requires Stands(sb, d, s) && Sane(sb, |d|) && Upright(sb, d, s.origin)
    ensures Stands(sb, d, FirstStand(sb, d)) && Upright(sb, d, FirstStand(sb, d).origin) && Shows(sb, FirstStand(sb, d).state, s)
    ensures Recovered(sb, d).Ok?
  {
    hide Committed, Recovered, Contained, Genuine, Announces, Payload;
    RecoveredRoot(sb, d);
    if Committed(sb, d).Some? {
      FirstGenuine(sb, d);
    } else {
      NothingGenuine(sb, FirstStand(sb, d));
    }
  }

  lemma NothingGenuine(sb: Superblock, s: Stand)
    requires s.origin.Known? && !Announces(s.origin.head, sb.journalBlocks)
    ensures Genuine(sb, s)
  {
  }

  lemma FirstGenuine(sb: Superblock, d: Disk)
    requires Sane(sb, |d|) && Committed(sb, d).Some? && Contained(sb, d) && Recovered(sb, d).Ok?
    ensures Genuine(sb, FirstStand(sb, d))
  {
    hide Committed, Homes, Sum, At, Last, Replay;
    CommittedMeans(sb, d);
    var homes := Homes(d[sb.journalStart]);
    forall i | 0 <= i < |homes|
      ensures homes[i] < |d| && Recovered(sb, d).value[homes[i]] == Payload(sb, d, |homes|)[Last(homes, homes[i]) - 1]
    {
      assert InRange(sb, homes[i]) && !InLog(sb, homes[i]) && homes[i] in homes;
      RecoveredAt(sb, d, homes[i]);
    }
  }

  // ----- mounting again in place

  /** Where a volume stands, once what it shows committed is. */
  ghost function Ahead(phase: Phase): Stand {
    match phase
    case Building(now) => now
    case Committing(_, will) => will
  }

  /** What is shown committed, if anything, is what the device holds committed. */
  predicate Settled(sb: Superblock, phase: Phase, view: Disk, d: Disk) {
    phase.Building? || (sb.journalStart < |view| == |d| && view[sb.journalStart] == d[sb.journalStart])
  }

  /**
   A commit that has not landed, over a device that commits nothing, and that does not
   change two homes of which the journal covers one.
   */
  ghost predicate WaitsAlone(sb: Superblock, phase: Phase, view: Disk, d: Disk) {
    && phase.Committing? && !Settled(sb, phase, view, d) && Sane(sb, |view|) && |view| == |d| == |phase.will.state|
    && Committed(sb, d).None? && Committed(sb, view).Some? && !ChangesTwo(sb, view, d, phase.was, phase.will)
  }

  /** Each disk from `base` on recovers one way or the other. */
  ghost predicate AllRecover(sb: Superblock, h: seq<Disk>, base: nat, was: Stand, will: Stand) {
    forall k | base <= k < |h| :: RecoversTo(sb, h[k], was) || RecoversTo(sb, h[k], will)
  }

  /** What a device that held `d` has gone through since `base` in a mount of what a volume shows. */
  ghost predicate Remounting(sb: Superblock, phase: Phase, view: Disk, d: Disk, h: seq<Disk>, base: nat, steady: bool) {
    && (Settled(sb, phase, view, d) ==> AllStand(sb, h, base, Ahead(phase), steady))
    && (WaitsAlone(sb, phase, view, d) ==> AllRecover(sb, h, base, phase.was, phase.will))
  }

  /** A volume is ready to be mounted again, and what it shows recovers to what it stands by once committed. */
  lemma AheadReady(sb: Superblock, book: Book, view: Disk, dirty: set<nat>, history: seq<Disk>, calm: bool)
    requires Secure(sb, book, view, dirty, history, calm) && Sane(sb, |view|)
    requires book.phase.Building? ==> Committed(sb, view).None?
    ensures var d, s := history[|history| - 1], Ahead(book.phase);
      && |d| == |view| && Ready(sb, view, d, dirty, s) && Contained(sb, view)
      && Recovered(sb, view).Ok? && Shows(sb, Recovered(sb, view).value, s)
      && (book.phase.Committing? <==> Committed(sb, view).Some?)
  {
    hide Stands, Ordered, Genuine, Traced, Replay, Sum, At, Announces, Upright, Owned, Calm, Committed, Homes, Recovered;
    if book.phase.Building? {
      RecoveredNone(sb, view);
    } else {
      var d := history[|history| - 1];
      CommitsPromise(sb, view, d, book.phase.was, book.phase.will);
      RecoveredSome(sb, view);
      RecoveredReaches(sb, view, d, book.phase.was, book.phase.will, Recovered(sb, view).value);
    }
  }

  /** A volume that is settled stays where it stands through a mount. */
  lemma SettledStands(sb: Superblock, book: Book, view: Disk, dirty: set<nat>, h: seq<Disk>, calm: bool, h': seq<Disk>)
    requires Secure(sb, book, view, dirty, h, calm) && Sane(sb, |view|) && Quiet(sb, book.phase, h[|h| - 1], calm)
    requires book.phase.Building? ==> Committed(sb, view).None?
    requires |h[|h| - 1]| == |view| && Settled(sb, book.phase, view, h[|h| - 1])
    requires Passed(sb, view, h[|h| - 1], h', |h| - 1, Ahead(book.phase))
    ensures AllStand(sb, h', |h| - 1, Ahead(book.phase), calm)
  {
    hide Stands, Ordered, Rests, Committed, Upright, Owned, OnTheWay, Homes, Announces;
    var d := h[|h| - 1];
    forall k | |h| - 1 <= k < |h'|
      ensures Sane(sb, |h'[k]|) && Stands(sb, h'[k], Ahead(book.phase)) && (calm ==> Upright(sb, h'[k], Ahead(book.phase).origin))
    {
      assert OnTheWay(sb, view, d, h'[k]);
      if book.phase.Building? {
        assert Rests(sb, h'[k], book.phase.now);
        RestsStands(sb, h'[k], book.phase.now);
        if calm {
          QuietWay(sb, view, d, h'[k], book.phase.now.origin);
        }
      } else {
        LandedWay(sb, view, d, book.phase.was, book.phase.will, h'[k]);
      }
      StandsSized(sb, h'[k], Ahead(book.phase));
    }
  }

  /** Over a device that announces nothing, a mount that has nothing to replay leaves none that does. */
  lemma QuietWay(sb: Superblock, view: Disk, d: Disk, e: Disk, o: Origin)
    requires Sane(sb, |view|) && |d| == |view| && Committed(sb, view).None? && OnTheWay(sb, view, d, e)
    requires !Announces(view[sb.journalStart], sb.journalBlocks) && !Announces(d[sb.journalStart], sb.journalBlocks)
    ensures |e| == |view| && !Announces(e[sb.journalStart], sb.journalBlocks) && Upright(sb, e, o)
  {
    hide Committed, Announces, Upright, Allowed;
    if Recovered(sb, view) == Ok(e) {
      RecoveredNone(sb, view);
    } else {
      var i := AllowedIs(sb, view, d, [], sb.journalStart, e[sb.journalStart]);
    }
    NothingAnnounced(sb, e, o);
  }

  /** A commit that waits alone recovers one way or the other through a mount. */
  lemma WaitingRecovers(sb: Superblock, book: Book, view: Disk, dirty: set<nat>, h: seq<Disk>, calm: bool, h': seq<Disk>)
    requires Secure(sb, book, view, dirty, h, calm) && Sane(sb, |view|) && |h[|h| - 1]| == |view|
    requires WaitsAlone(sb, book.phase, view, h[|h| - 1])
    requires Passed(sb, view, h[|h| - 1], h', |h| - 1, Ahead(book.phase))
    ensures AllRecover(sb, h', |h| - 1, book.phase.was, book.phase.will)
  {
    hide Stands, Ordered, Rests, Committed, Upright, Owned, OnTheWay, Homes, Announces, Commits, RecoversTo, ChangesTwo, Calm;
    var d, was, will := h[|h| - 1], book.phase.was, book.phase.will;
    assert Commits(sb, view, d, was, will);
    CommitsUnlanded(sb, view, d, was, will);
    TearsExactly(sb, view, d, was, will);
    forall k | |h| - 1 <= k < |h'|
      ensures RecoversTo(sb, h'[k], was) || RecoversTo(sb, h'[k], will)
    {
      assert OnTheWay(sb, view, d, h'[k]);
    }
  }

  lemma Remounts(sb: Superblock, book: Book, view: Disk, dirty: set<nat>, h: seq<Disk>, calm: bool, h': seq<Disk>)
    requires Secure(sb, book, view, dirty, h, calm) && Sane(sb, |view|) && Quiet(sb, book.phase, h[|h| - 1], calm)
    requires book.phase.Building? ==> Committed(sb, view).None?
    requires |h[|h| - 1]| == |view| && Passed(sb, view, h[|h| - 1], h', |h| - 1, Ahead(book.phase))
    ensures Remounting(sb, book.phase, view, h[|h| - 1], h', |h| - 1, calm)
  {
    hide Secure, Quiet, Committed, Passed, Settled, WaitsAlone, AllStand, AllRecover;
    SecureSizes(sb, book, view, dirty, h, calm);
    if Settled(sb, book.phase, view, h[|h| - 1]) {
      SettledStands(sb, book, view, dirty, h, calm, h');
    }
    if WaitsAlone(sb, book.phase, view, h[|h| - 1]) {
      WaitingRecovers(sb, book, view, dirty, h, calm, h');
    }
  }

  /** Where the volume that comes of mounting again starts. */
  lemma RemountedStarts(sb: Superblock, book: Book, view: Disk, dirty: set<nat>, h: seq<Disk>, calm: bool, h': seq<Disk>, view': Disk)
    requires Secure(sb, book, view, dirty, h, calm) && Sane(sb, |view|) && Quiet(sb, book.phase, h[|h| - 1], calm)
    requires book.phase.Building? ==> Committed(sb, view).None?
    requires |h[|h| - 1]| == |view| && 0 < |h| <= |h'| && |h'[|h'| - 1]| == |view|
    requires Passed(sb, view, h[|h| - 1], h', |h| - 1, Ahead(book.phase))
    requires Recovered(sb, view) == Ok(view') && (Committed(sb, view).Some? ==> h'[|h'| - 1] == view')
    ensures |view'| == |view| && Committed(sb, view').None?
    ensures var s := Start(sb, view, view', Ahead(book.phase));
            && s.loose == Ahead(book.phase).loose && SameOutside(sb, s.state, Ahead(book.phase).state)
            && (book.known ==> s.origin.Known?)
    ensures calm ==> Silent(sb, view', h'[|h'| - 1])
  {
    hide Stands, Ordered, Rests, Committed, Upright, OnTheWay, Homes, Announces, Commits, RecoversTo, Landed, Recovered, Contained;
    var d := h[|h| - 1];
    if book.phase.Building? {
      RecoveredNone(sb, view);
      assert OnTheWay(sb, view, d, h'[|h'| - 1]);
      if calm {
        QuietWay(sb, view, d, h'[|h'| - 1], book.phase.now.origin);
      }
    } else {
      CommitsPromise(sb, view, d, book.phase.was, book.phase.will);
      RecoveredReaches(sb, view, d, book.phase.was, book.phase.will, view');
      ZeroAnnouncesNothing();
    }
  }

  /** A volume just opened where another left off: it stands by the same state, and as loose. */
  ghost predicate Reopened(v: Volume, s: Stand)
    reads v, v.cache, v.cache.store
  {
    && v.book.txn == 0 && v.book.phase.Building? && v.book.marks == [Mark(0, v.book.phase.now)]
    && v.book.base == |v.cache.store.history| - 1
    && v.book.phase.now.loose == s.loose && SameOutside(v.sb, v.book.phase.now.state, s.state)
  }

  /** A volume that goes on from `s` in the same cache, with nothing shown committed. */
  ghost predicate GoesOn(v: Volume, sb: Superblock, cache: Cache, s: Stand, known: bool)
    reads v, v.cache, v.cache.store
  {
    && v.cache == cache && Resumed(v, sb, cache.store, s) && Reopened(v, s)
    && Sane(sb, |v.cache.View()|) && Committed(sb, v.cache.View()).None? && (known ==> v.book.known)
  }

  /**
   Mounting again in place, whatever an operation that failed left waiting. The volume
   that comes of it shows what the old one stood by, with what it showed committed
   committed, and a steady volume is followed by a steady one. If it was settled, every
   disk the device passes through stands there too. If the commit was still waiting,
   every one recovers to where the disk was or to where it will be, unless two homes change.
   */
  method Remount(v: Volume) returns (r: Result<(Volume, nat), FsError>)
    requires v.Valid() && (v.book.phase.Building? ==> Committed(v.sb, v.cache.View()).None?)
    modifies v.cache.Repr()
    ensures v.cache.Valid() && v.cache.store.Ages() && (Free(old(v.cache.slots)) ==> Free(v.cache.slots))
    ensures !v.cache.store.Failed() && Free(old(v.cache.slots)) ==> r.Ok?
    ensures r.Ok? ==> fresh(r.value.0) && GoesOn(r.value.0, v.sb, v.cache, Ahead(v.book.phase), v.book.known)
    ensures r.Ok? && old(v.Steady()) && !v.cache.store.refused ==> r.value.0.Steady()
    ensures Remounting(v.sb, v.book.phase, old(v.cache.View()), old(v.cache.store.blocks), v.cache.store.history,
                       |old(v.cache.store.history)| - 1, old(v.Steady()))
  {
    hide ReadHead, Secure, Coherent, Timed, Recovered, Contained, Committed, Passed, Silent, Shows, Builds, Ready, Free,
      CacheModel.View, Dirty, Quiet, Remounting, Announces, SameOutside, Start;
    ghost var view, h, dirty, steady := v.cache.View(), v.cache.store.history, v.cache.Waiting(), v.Steady();
    AheadReady(v.sb, v.book, view, dirty, h, steady);
    SecureRoot(v.sb, v.book, view, dirty, h, steady);
    r := Mount(v.cache, Ahead(v.book.phase));
    Remounts(v.sb, v.book, view, dirty, h, steady, v.cache.store.history);
    if r.Ok? {
      RemountedStarts(v.sb, v.book, view, dirty, h, steady, v.cache.store.history, v.cache.View());
    }
  }

  /** What is shown has the volume's superblock, which is never loose. */
  lemma SecureRoot(sb: Superblock, book: Book, view: Disk, dirty: set<nat>, history: seq<Disk>, calm: bool)
    requires Secure(sb, book, view, dirty, history, calm)
    ensures Sized(sb, history, view) && view != [] && view[0] == book.root
    ensures var s := MarkOf(sb, book.phase, book.txn, view, history[|history| - 1]).stand;
            0 !in s.loose && Owned(s, book.root, book.known)
  {
    hide Stands, Ordered, Genuine, Traced, Committed, Homes;
    if book.phase.Committing? {
      assert Promises(sb, view, book.phase.will);
    }
  }
}
