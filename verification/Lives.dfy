/** Any number of machines, one after another, on one disk: what is acknowledged is kept, and nothing is half kept. */
module Lives {
  import opened Words
  import opened Blocks
  import opened Superblocks
  import opened CacheModel
  import opened PageCache
  import opened Journal
  import opened Recovery
  import opened Ledger
  import opened Volumes
  import opened Mounting
  import opened Formatting
  import opened Fresh
  import opened CrashSafety
  import opened Transactions
  import opened Services

  /** One machine: what it is asked to do, in which of its device's states it stops, and the frames of the next one. */
  datatype Life = Life(work: seq<Transaction>, stop: nat, frames: nat)

  /** When a machine was done mounting, what it answered, and which state of its device it left. */
  datatype Report = Report(began: Clock, done: seq<Done>, stop: nat)

  /** The durable states of a machine, which of them the state it left stands for, and what the next machine shows. */
  datatype Chapter = Chapter(track: Track, place: nat, shown: Disk)

  /**
   A machine whose device went through the states `h`, those of its own mount included,
   and that stopped in the one it was told to. It answered every operation fairly, and
   gave up only if its device failed. What the next machine shows is, outside the log,
   the state after the first `place` of the operations that committed, each whole and in
   order, but for data changed in place by later ones. Every operation acknowledged by
   the stop is among them; and an operation not begun by then left nothing, so that a
   stop in the mount itself shows exactly what was there.
   */
  ghost predicate Lived(sb: Superblock, life: Life, start: Disk, h: seq<Disk>, faults: nat, r: Report, c: Chapter) {
    && h != [] && r.stop == life.stop % |h| && Served(sb, |start|, life.work, r.began, r.done, Clock(|h|, faults))
    && Chained(sb, life.work, c.track) && c.track.states[0] == start && c.place <= |c.track.of|
    && (forall n: nat | Unbegun(r.done, r.began, n, r.stop) ::
          && Agrees(sb, c.shown, c.track.states[c.place], Late(sb, life.work, Since(c.track, c.place), n))
          && (0 < c.place ==> c.track.of[c.place - 1] < n))
    && forall j | 0 <= j < |r.done| && r.done[j].answer.Ok? && Chosen(sb, life.work[j].homes) != [] && r.done[j].at.states <= r.stop + 1 ::
         j in c.track.of[..c.place]
  }

  /** A machine that stops before it has mounted leaves what it found. */
  lemma StopInMount(sb: Superblock, life: Life, start: Disk, h: seq<Disk>, faults: nat, r: Report, c: Chapter)
    requires Lived(sb, life, start, h, faults, r, c) && r.stop < r.began.states
    ensures SameOutside(sb, c.shown, start)
  {
    hide Chained, Served, Chosen;
    assert Unbegun(r.done, r.began, 0, r.stop);
  }

  /** Stopping a machine that has done its work. */
  lemma StoppedLived(sb: Superblock, life: Life, start: Disk, h: seq<Disk>, began: Clock, done: seq<Done>, log: Diary, cur: Stand, faults: nat,
                     stop: nat, shown: Disk)
    requires Worked(sb, life.work, start, h, began, done, log, cur) && Served(sb, |start|, life.work, began, done, Clock(|h|, faults))
    requires h != [] && stop == life.stop % |h| && stop < |log.marks| && Shows(sb, shown, log.marks[stop].stand)
    ensures Lived(sb, life, start, h, faults, Report(began, done, stop), Chapter(log.track, log.marks[stop].txn, shown))
  {
    hide Late, Chosen, Chained, Trusty, Acks, Rising, Answered, AllFair, Tells, Agrees, Shows, Unbegun;
    var k, mark := log.track, log.marks[stop];
    MarksBelow(sb, life.work, log, |done|, h);
    assert Tells(sb, life.work, k, mark.txn, |done|, mark.stand);
    forall n: nat | Unbegun(done, began, n, stop)
      ensures Agrees(sb, shown, k.states[mark.txn], Late(sb, life.work, Since(k, mark.txn), n)) && (0 < mark.txn ==> k.of[mark.txn - 1] < n)
    {
      assert MadeOf(sb, life.work, k, mark, n);
      StopAgrees(sb, life.work, k, mark, |done|, n, shown);
    }
    StopHolds(sb, life.work, done, log, stop);
  }

  lemma StopAgrees(sb: Superblock, work: seq<Transaction>, k: Track, m: Mark, n: nat, n': nat, shown: Disk)
    requires Tells(sb, work, k, m.txn, n, m.stand) && MadeOf(sb, work, k, m, n') && Shows(sb, shown, m.stand)
    ensures Agrees(sb, shown, k.states[m.txn], Late(sb, work, Since(k, m.txn), n'))
  {
    hide Late;
  }

  /** A stop holds every operation acknowledged by then. */
  lemma StopHolds(sb: Superblock, work: seq<Transaction>, done: seq<Done>, log: Diary, stop: nat)
    requires Acks(sb, work, done, log) && Rising(log.marks) && |done| <= |work|
    requires stop < |log.marks| && forall i | 0 <= i < |log.marks| :: log.marks[i].txn <= |log.track.of|
    ensures forall j | 0 <= j < |done| && done[j].answer.Ok? && Chosen(sb, work[j].homes) != [] && done[j].at.states <= stop + 1 ::
              j in log.track.of[..log.marks[stop].txn]
  {
    hide Chosen;
    var place := log.marks[stop].txn;
    forall j | 0 <= j < |done| && done[j].answer.Ok? && Chosen(sb, work[j].homes) != [] && done[j].at.states <= stop + 1
      ensures j in log.track.of[..place]
    {
      assert Acked(log, j, done[j].at.states);
      var txn := log.marks[done[j].at.states - 1].txn;
      assert txn <= place;
      assert log.track.of[..place][txn - 1] == j;
    }
  }

  lemma WorkedBegan(sb: Superblock, work: seq<Transaction>, start: Disk, h: seq<Disk>, began: Clock, done: seq<Done>, log: Diary, cur: Stand)
    requires Worked(sb, work, start, h, began, done, log, cur)
    ensures h != []
  {
    hide Chained, Tells, Trusty, Acks, Timely;
  }

  lemma WorkedStops(sb: Superblock, work: seq<Transaction>, start: Disk, h: seq<Disk>, began: Clock, done: seq<Done>, log: Diary, cur: Stand,
                    stop: nat)
    requires Worked(sb, work, start, h, began, done, log, cur) && stop < |h|
    ensures stop < |log.marks| && Trusty(sb, h[stop], log.marks[stop].stand)
  {
    hide Chained, Tells, Trusty, Acks, Timely;
  }

  /** A machine on `device` has mounted, and shows `view`; or its device failed, and has been through nothing that is not `view`. */
  ghost predicate Up(v: Option<Volume>, sb: Superblock, device: Device, view: Disk)
    reads device, if v.Some? then {v.value, v.value.cache, v.value.cache.store} else {}
  {
    && Intact(sb, view, device.history)
    && match v
       case None => 0 < device.faults
       case Some(w) => Begins(w) && w.sb == sb && w.cache.store == device && w.cache.View() == view
  }

  /** A new machine mounts a disk one was stopped on. */
  method Boot(ghost sb: Superblock, disk: Disk, ghost s: Stand, frames: nat)
    returns (v: Option<Volume>, device: Device, ghost view: Disk)
    requires Trusty(sb, disk, s) && MIN_FRAMES <= frames <= MAX_FRAMES
    ensures fresh(device) && [disk] <= device.history && Up(v, sb, device, view) && Shows(sb, view, s)
    ensures v.Some? ==> fresh(v.value) && fresh(v.value.cache)
  {
    hide Secure, Coherent, Timed, ReadHead, Quiet, Stageable, Shows, Stands, Upright, Forged, CacheModel.View, Dirty, Free, Recovered,
      Committed, FirstStand, AllStand;
    FirstStands(sb, disk, s);
    UprightMeans(sb, disk, FirstStand(sb, disk));
    FirstShows(sb, disk);
    StandsRoot(sb, disk, FirstStand(sb, disk));
    view := Recovered(sb, disk).value;
    var r;
    r, device := Reboot(sb, disk, FirstStand(sb, disk), frames);
    v := if r.Err? || device.refused then None else Some(r.value.0);
  }

  lemma FirstShows(sb: Superblock, d: Disk)
    requires Sane(sb, |d|) && Recovered(sb, d).Ok?
    ensures FirstStand(sb, d).state == Recovered(sb, d).value
  {
  }

  lemma UprightMeans(sb: Superblock, d: Disk, s: Stand)
    requires Sane(sb, |d|) && Upright(sb, d, s.origin)
    ensures !Forged(sb, d, s.origin)
  {
  }

  /** A machine does its work, if it has mounted. */
  method Spend(v: Option<Volume>, ghost sb: Superblock, device: Device, ghost start: Disk, work: seq<Transaction>)
    returns (began: Clock, done: seq<Done>, ghost log: Diary, ghost cur: Stand)
    requires Up(v, sb, device, start) && MAX_STAGED < sb.journalBlocks
    modifies device, if v.Some? then v.value.Repr() else {}
    ensures device.Ages() && began.states == |old(device.history)| && Served(sb, |start|, work, began, done, Now(device))
    ensures v.None? || !device.refused ==> Worked(sb, work, start, device.history, began, done, log, cur)
  {
    hide Secure, Coherent, Timed, ReadHead, Quiet, Stageable, CacheModel.View, Dirty, Free, Worked, Recovered, Committed, FirstStand,
      AllStand, Fitting;
    began := Now(device);
    if v.Some? {
      done, log, cur := Work(v.value, work);
    } else {
      began, done, cur := Clock(|device.history|, 0), [], Stand(start, {}, Unknown);
      log := Diary(Track([start], []), Again(|device.history|, Mark(0, FirstStand(sb, device.history[0]))));
      IntactWorked(sb, work, start, device.history, began, cur);
    }
  }

  /** One machine does its work and stops, unless its device refused it a write, and the next is given what it left. */
  method Live(v: Option<Volume>, ghost sb: Superblock, device: Device, ghost start: Disk, life: Life)
    returns (left: Option<Device>, next: Option<Volume>, report: Report, ghost c: Chapter)
    requires Up(v, sb, device, start) && MAX_STAGED < sb.journalBlocks && MIN_FRAMES <= life.frames <= MAX_FRAMES
    modifies device, if v.Some? then v.value.Repr() else {}
    ensures device.Ages() && (left.None? ==> v.Some? && device.refused && device.Failed())
    ensures left.Some? ==>
              && fresh(left.value) && Up(next, sb, left.value, c.shown)
              && (next.Some? ==> fresh(next.value) && fresh(next.value.cache))
              && Lived(sb, life, start, device.history, device.faults, report, c) && report.began.states == |old(device.history)|
              && [device.history[report.stop]] <= left.value.history
  {
    hide Secure, Coherent, Timed, ReadHead, Quiet, Stageable, Shows, CacheModel.View, Dirty, Lived, Worked, Free, Served, Recovered,
      FirstStand, AllStand, Trusty, Intact;
    left, next, c := None, None, Chapter(Track([], []), 0, []);
    var began, done;
    ghost var log, cur;
    began, done, log, cur := Spend(v, sb, device, start, life.work);
    report := Report(began, done, 0);
    if v.Some? && device.refused {
      return;
    }
    WorkedBegan(sb, life.work, start, device.history, began, done, log, cur);
    var stop := life.stop % |device.history|;
    WorkedStops(sb, life.work, start, device.history, began, done, log, cur, stop);
    var device';
    ghost var shown;
    next, device', shown := Boot(sb, device.history[stop], log.marks[stop].stand, life.frames);
    StoppedLived(sb, life, start, device.history, began, done, log, cur, device.faults, stop, shown);
    left, report, c := Some(device'), Report(began, done, stop), Chapter(log.track, log.marks[stop].txn, shown);
  }

  /** What machine `k` finds when it starts. */
  ghost function Begun(d: Disk, chapters: seq<Chapter>, k: nat): Disk
    requires k <= |chapters|
  {
    if k == 0 then d else chapters[k - 1].shown
  }

  /** What a machine's device went through, and how often it failed. */
  datatype Machine = Machine(history: seq<Disk>, faults: nat)

  ghost function Machines(devices: seq<Device>): (r: seq<Machine>)
    reads devices
    ensures |r| == |devices|
  {
    seq(|devices|, k requires 0 <= k < |devices| reads devices => Machine(devices[k].history, devices[k].faults))
  }

  /** Each machine's device began as the state the one before left, and each machine lived on what it found there. */
  ghost predicate Story(sb: Superblock, d: Disk, lives: seq<Life>, machines: seq<Machine>, reports: seq<Report>,
                        chapters: seq<Chapter>) {
    && |chapters| == |reports| <= |lives| && |reports| < |machines| && [d] <= machines[0].history
    && (forall k | 0 <= k < |reports| :: Chronicled(sb, d, lives, machines, reports, chapters, k))
    && forall k | 0 <= k < |reports| ::
         reports[k].stop < |machines[k].history| && [machines[k].history[reports[k].stop]] <= machines[k + 1].history
  }

  ghost predicate Chronicled(sb: Superblock, d: Disk, lives: seq<Life>, machines: seq<Machine>, reports: seq<Report>,
                       chapters: seq<Chapter>, k: nat)
    requires k < |chapters| == |reports| <= |lives| && |reports| < |machines|
  {
    Lived(sb, lives[k], Begun(d, chapters, k), machines[k].history, machines[k].faults, reports[k], chapters[k])
  }

  /** A story goes on being told while its last machine goes on, and others come after it. */
  lemma StoryStays(sb: Superblock, d: Disk, lives: seq<Life>, machines: seq<Machine>, machines': seq<Machine>,
                   reports: seq<Report>, chapters: seq<Chapter>)
    requires Story(sb, d, lives, machines, reports, chapters) && |machines| == |reports| + 1 <= |machines'|
    requires machines'[..|reports|] == machines[..|reports|]
    requires machines[|reports|].history <= machines'[|reports|].history
    ensures Story(sb, d, lives, machines', reports, chapters)
  {
    hide Lived, Begun;
    var n := |reports|;
    forall k | 0 <= k < n
      ensures machines'[k] == machines[k] && Chronicled(sb, d, lives, machines', reports, chapters, k)
    {
      assert machines'[..n][k] == machines[..n][k];
      assert Chronicled(sb, d, lives, machines, reports, chapters, k);
    }
  }

  /** One more machine has lived, and another is mounted. */
  lemma StoryGrows(sb: Superblock, d: Disk, lives: seq<Life>, machines: seq<Machine>, reports: seq<Report>,
                   chapters: seq<Chapter>, m: Machine, r: Report, c: Chapter)
    requires Story(sb, d, lives, machines, reports, chapters) && |machines| == |reports| + 1 && |reports| < |lives|
    requires var last := machines[|reports|];
      && Lived(sb, lives[|reports|], Begun(d, chapters, |reports|), last.history, last.faults, r, c)
      && r.stop < |last.history| && [last.history[r.stop]] <= m.history
    ensures Story(sb, d, lives, machines + [m], reports + [r], chapters + [c])
    ensures Begun(d, chapters + [c], |chapters| + 1) == c.shown
  {
    hide Lived;
    forall k | 0 <= k < |reports| + 1
      ensures Chronicled(sb, d, lives, machines + [m], reports + [r], chapters + [c], k)
    {
      assert Begun(d, chapters + [c], k) == Begun(d, chapters, k);
      if k < |reports| {
        assert Chronicled(sb, d, lives, machines, reports, chapters, k);
      }
    }
  }

  lemma LivedStops(sb: Superblock, life: Life, start: Disk, h: seq<Disk>, faults: nat, r: Report, c: Chapter)
    requires Lived(sb, life, start, h, faults, r, c)
    ensures r.stop < |h|
  {
    hide Chained, Served, Agrees, Chosen, Late;
  }

  /** The story so far, with the last machine about to begin. */
  ghost predicate Telling(v: Option<Volume>, sb: Superblock, d: Disk, lives: seq<Life>, devices: seq<Device>, reports: seq<Report>,
                          chapters: seq<Chapter>)
    reads devices, if v.Some? then {v.value, v.value.cache, v.value.cache.store} else {}
  {
    && |chapters| == |reports| && |devices| == |reports| + 1 && (forall j | 0 <= j < |reports| :: devices[j] != devices[|reports|])
    && Up(v, sb, devices[|reports|], Begun(d, chapters, |chapters|))
    && Story(sb, d, lives, Machines(devices), reports, chapters)
  }

  /** One machine's turn; it is the last one if its device refused it a write. */
  method Turn(v: Option<Volume>, sb: Superblock, ghost d: Disk, lives: seq<Life>, devices: seq<Device>, reports: seq<Report>,
              ghost chapters: seq<Chapter>)
    returns (on: bool, next: Option<Volume>, devices': seq<Device>, reports': seq<Report>, ghost chapters': seq<Chapter>)
    requires Telling(v, sb, d, lives, devices, reports, chapters) && |reports| < |lives| && MAX_STAGED < sb.journalBlocks
    requires MIN_FRAMES <= lives[|reports|].frames <= MAX_FRAMES
    modifies devices[|reports|], if v.Some? then {v.value, v.value.cache, v.value.cache.store} else {}
    ensures on ==> |reports'| == |reports| + 1 && Telling(next, sb, d, lives, devices', reports', chapters')
                   && fresh(devices'[|reports'|]) && (next.Some? ==> fresh(next.value) && fresh(next.value.cache))
    ensures !on ==> next.None? && devices' == devices && reports' == reports && devices[|reports|].refused && 0 < devices[|reports|].faults
    ensures Story(sb, d, lives, Machines(devices'), reports', chapters') && |chapters'| == |reports'|
  {
    hide Lived, Begun, Story, Up;
    UpStore(v, sb, devices[|reports|], Begun(d, chapters, |chapters|));
    var device := devices[|reports|];
    ghost var machines, start := Machines(devices), Begun(d, chapters, |chapters|);
    on, devices', reports', chapters' := false, devices, reports, chapters;
    var left, report;
    ghost var c;
    left, next, report, c := Live(v, sb, device, start, lives[|reports|]);
    StoryStays(sb, d, lives, machines, Machines(devices), reports, chapters);
    machines := Machines(devices);
    if left.None? {
      next := None;
      return;
    }
    LivedStops(sb, lives[|reports|], start, device.history, device.faults, report, c);
    StoryGrows(sb, d, lives, machines, reports, chapters, Machine(left.value.history, left.value.faults), report, c);
    on, devices', reports', chapters' := true, devices + [left.value], reports + [report], chapters + [c];
    assert Machines(devices') == machines + [Machine(left.value.history, left.value.faults)];
  }

  lemma UpStore(v: Option<Volume>, sb: Superblock, device: Device, view: Disk)
    requires Up(v, sb, device, view)
    ensures v.Some? ==> v.value.cache.store == device
  {
    hide Begins, Intact;
  }

  /**
   A formatted disk, and any number of machines in turn: each mounts, mounts its cache
   again before every operation, stops in any state its device has been in, those of its
   mounts included, and leaves its disk to the next. A machine whose device fails in
   its first mount does nothing, and leaves its disk to the next as well. Unless a device
   fails every machine mounts and every operation that fits succeeds; the disk is never
   forged; and each machine's acknowledged operations are there for the next, whole and
   in order. Only a write refused to a machine at work ends the account.
   */
  method Run(d: Disk, ghost size: nat, sb: Superblock, frames: nat, lives: seq<Life>)
    returns (last: Option<Volume>, devices: seq<Device>, reports: seq<Report>, ghost chapters: seq<Chapter>)
    requires Carries(d, size, sb) && |d| < U32 && MIN_FRAMES <= frames <= MAX_FRAMES
    requires forall k | 0 <= k < |lives| :: MIN_FRAMES <= lives[k].frames <= MAX_FRAMES
    ensures Story(sb, d, lives, Machines(devices), reports, chapters) && |devices| == |reports| + 1 && |chapters| == |reports|
    ensures |reports| < |lives| ==> devices[|reports|].refused
    ensures last.Some? ==> last.value.Valid() && last.value.Steady() && last.value.sb == sb && |reports| == |lives|
                           && last.value.cache.store == devices[|reports|] && last.value.cache.View() == Begun(d, chapters, |chapters|)
    ensures last.None? ==> 0 < devices[|reports|].faults
  {
    hide *;
    reports, chapters := [], [];
    LongLog(d, size, sb);
    var first, device := MountFresh(d, size, sb, frames);
    devices := [device];
    var v := if first.Err? || device.refused then None else Some(first.value.0);
    TellingBegins(v, sb, d, lives, device);
    for k := 0 to |lives|
      invariant Telling(v, sb, d, lives, devices, reports, chapters) && |reports| == k && |devices| == k + 1
      invariant fresh(devices[k]) && (v.Some? ==> fresh(v.value) && fresh(v.value.cache) && v.value.cache.store == devices[k])
    {
      var on;
      on, last, devices, reports, chapters := Turn(v, sb, d, lives, devices, reports, chapters);
      if !on {
        return;
      }
      v := last;
      TellingShows(v, sb, d, lives, devices, reports, chapters);
    }
    TellingShows(v, sb, d, lives, devices, reports, chapters);
    last := v;
  }

  lemma LongLog(d: Disk, size: nat, sb: Superblock)
    requires Carries(d, size, sb)
    ensures MAX_STAGED < sb.journalBlocks
  {
    hide Carries;
    CarriesLog(d, size, sb);
  }

  lemma TellingBegins(v: Option<Volume>, sb: Superblock, d: Disk, lives: seq<Life>, device: Device)
    requires [d] <= device.history && |d| < U32 && Sane(sb, |d|) && Recovered(sb, d) == Ok(d) && ReadHead(d[0], |d|) == Ok(sb)
    requires AllStand(sb, device.history, 0, FirstStand(sb, d), true)
    requires match v case Some(w) => Blank(w, sb, device, d) && w.Steady() case None => 0 < device.faults
    ensures Telling(v, sb, d, lives, [device], [], []) && (v.Some? ==> v.value.cache.store == device)
  {
    hide Secure, Coherent, Timed, ReadHead, Quiet, Stageable, CacheModel.View, Dirty, Free, Recovered, AllStand, FirstStand;
    assert Machines([device]) == [Machine(device.history, device.faults)];
  }

  lemma TellingShows(v: Option<Volume>, sb: Superblock, d: Disk, lives: seq<Life>, devices: seq<Device>, reports: seq<Report>,
                     chapters: seq<Chapter>)
    requires Telling(v, sb, d, lives, devices, reports, chapters)
    ensures |chapters| == |reports| && |devices| == |reports| + 1 && Story(sb, d, lives, Machines(devices), reports, chapters)
    ensures match v
      case None => 0 < devices[|reports|].faults
      case Some(w) => w.Valid() && w.Steady() && w.sb == sb && w.cache.store == devices[|reports|] && w.cache.View() == Begun(d, chapters, |chapters|)
  {
    hide Secure, Coherent, Timed, ReadHead, Quiet, Stageable, CacheModel.View, Dirty, Free, Story, Begun, Intact;
  }
}
