/**
 The file service as it runs: the cache is mounted again before every operation, and
 every state of the device is accounted for by the operations that committed so far.
 */
module Services {
  import opened Words
  import opened Blocks
  import opened Superblocks
  import opened CacheModel
  import opened PageCache
  import opened Journal
  import opened Recovery
  import opened Ledger
  import opened Volumes
  import opened Mounting
  import opened CrashSafety
  import opened Transactions

  /** How many states a device has been in, and how often it has failed. */
  datatype Clock = Clock(states: nat, faults: nat)

  /** How an operation ended, and when. */
  datatype Done = Done(answer: Result<(), FsError>, at: Clock)

  function Now(device: Device): Clock
    reads device
  {
    Clock(|device.history|, device.faults)
  }

  /** When operation `j` was begun, the first of them at `began`. */
  function Before(done: seq<Done>, began: Clock, j: nat): Clock
    requires j <= |done|
  {
    if j == 0 then began else done[j - 1].at
  }

  predicate NoLater(a: Clock, b: Clock) {
    a.states <= b.states && a.faults <= b.faults
  }

  /** The durable states in turn; operation `of[i]` made `states[i + 1]`. */
  datatype Track = Track(states: seq<Disk>, of: seq<nat>)

  /** A track, and for each state of the device what it must recover to; a mark's number is a place in the track. */
  datatype Diary = Diary(track: Track, marks: seq<Mark>)

  // ----- which data is not promised

  /** The data blocks that operations from `first` on and before `n` change in place. */
  ghost function Late(sb: Superblock, work: seq<Transaction>, first: nat, n: nat): set<nat> {
    set j, b | first <= j < n && j < |work| && b in InPlace(sb, work[j].data) :: b
  }

  /** The first operation after those that made state `i`. */
  ghost function Since(k: Track, i: nat): nat
    requires i <= |k.of|
  {
    if i == 0 then 0 else k.of[i - 1] + 1
  }

  lemma LateGrows(sb: Superblock, work: seq<Transaction>, first: nat, n: nat, n': nat)
    requires n <= n'
    ensures Late(sb, work, first, n) <= Late(sb, work, first, n')
    ensures first <= n < n' && n < |work| ==> InPlace(sb, work[n].data) <= Late(sb, work, first, n')
  {
    hide InPlace;
  }

  // ----- the track

  /** The operation, applied to a disk that differs from `d` only in the log and in `late`, gives `e`. */
  ghost predicate Follows(sb: Superblock, d: Disk, e: Disk, t: Transaction, late: set<nat>) {
    exists shown: Disk :: Agrees(sb, shown, d, late) && Gives(sb, shown, t, e)
  }

  ghost predicate Gives(sb: Superblock, d: Disk, t: Transaction, e: Disk) {
    Sane(sb, |d|) && SameOutside(sb, e, Applied(sb, d, t))
  }

  /**
   Each state is the one before with one whole operation applied, in order; only data
   changed in place by operations in between that did not commit is not settled.
   */
  ghost predicate Chained(sb: Superblock, work: seq<Transaction>, k: Track) {
    && |k.states| == |k.of| + 1
    && (forall i, j | 0 <= i < j < |k.of| :: k.of[i] < k.of[j])
    && forall i | 0 <= i < |k.of| ::
         k.of[i] < |work| && Follows(sb, k.states[i], k.states[i + 1], work[k.of[i]], Late(sb, work, Since(k, i), k.of[i]))
  }

  /** The track with one more operation. */
  ghost function Longer(k: Track, next: Disk, j: nat): Track {
    Track(k.states + [next], k.of + [j])
  }

  ghost predicate Extends(k: Track, k': Track) {
    k.states <= k'.states && k.of <= k'.of
  }

  lemma ChainedStep(sb: Superblock, work: seq<Transaction>, k: Track, shown: Disk, next: Disk, j: nat)
    requires Chained(sb, work, k) && j < |work| && forall i | 0 <= i < |k.of| :: k.of[i] < j
    requires Agrees(sb, shown, k.states[|k.of|], Late(sb, work, Since(k, |k.of|), j)) && Gives(sb, shown, work[j], next)
    ensures Chained(sb, work, Longer(k, next, j)) && Extends(k, Longer(k, next, j))
  {
    hide Agrees, Gives, Late;
    var k' := Longer(k, next, j);
    assert Follows(sb, k.states[|k.of|], next, work[j], Late(sb, work, Since(k, |k.of|), j));
    forall i | 0 <= i < |k'.of|
      ensures k'.of[i] < |work| && Follows(sb, k'.states[i], k'.states[i + 1], work[k'.of[i]], Late(sb, work, Since(k', i), k'.of[i]))
    {
      assert Since(k', i) == Since(k, i);
      if i < |k.of| {
        assert Follows(sb, k.states[i], k.states[i + 1], work[k.of[i]], Late(sb, work, Since(k, i), k.of[i]));
      }
    }
  }

  // ----- the marks

  /** A stand that is state `i` of the track, but for data changed in place since, by the first `n` operations. */
  ghost predicate Tells(sb: Superblock, work: seq<Transaction>, k: Track, i: nat, n: nat, s: Stand) {
    i < |k.states| == |k.of| + 1 && SameOutside(sb, s.state, k.states[i]) && s.loose <= Late(sb, work, Since(k, i), n)
  }

  /** A disk a machine may stop on: it stands, it is not forged, and it has its superblock. */
  ghost predicate Trusty(sb: Superblock, e: Disk, s: Stand) {
    && Sane(sb, |e|) && |e| < U32 && Stands(sb, e, s) && Upright(sb, e, s.origin) && ReadHead(e[0], |e|) == Ok(sb)
  }

  ghost predicate Rising(marks: seq<Mark>) {
    forall i, j | 0 <= i <= j < |marks| :: marks[i].txn <= marks[j].txn
  }

  /** Each state of the device is sound, and stands for a state of the track. */
  ghost predicate Logged(sb: Superblock, work: seq<Transaction>, log: Diary, n: nat, h: seq<Disk>) {
    && |h| == |log.marks| && log.marks != [] && Rising(log.marks)
    && forall i | 0 <= i < |log.marks| ::
         Tells(sb, work, log.track, log.marks[i].txn, n, log.marks[i].stand) && Trusty(sb, h[i], log.marks[i].stand)
  }

  lemma TellsLater(sb: Superblock, work: seq<Transaction>, k: Track, k': Track, i: nat, n: nat, n': nat, s: Stand)
    requires Tells(sb, work, k, i, n, s) && Extends(k, k') && |k'.states| == |k'.of| + 1 && n <= n'
    ensures Tells(sb, work, k', i, n', s)
  {
    hide Late;
    assert Since(k', i) == Since(k, i);
    LateGrows(sb, work, Since(k, i), n, n');
  }

  /** More marks, each of a state of the track no earlier than any before. */
  lemma LoggedMore(sb: Superblock, work: seq<Transaction>, log: Diary, k': Track, n: nat, n': nat, h: seq<Disk>,
                   more: seq<Mark>, h': seq<Disk>)
    requires Logged(sb, work, log, n, h) && Extends(log.track, k') && |k'.states| == |k'.of| + 1 && n <= n'
    requires h <= h' && |h'| == |h| + |more| && Rising(more)
    requires forall i | 0 <= i < |more| ::
               Tells(sb, work, k', more[i].txn, n', more[i].stand) && Trusty(sb, h'[|h| + i], more[i].stand)
    requires forall i, j | 0 <= i < |log.marks| && 0 <= j < |more| :: log.marks[i].txn <= more[j].txn
    ensures Logged(sb, work, Diary(k', log.marks + more), n', h')
  {
    hide Tells, Trusty;
    var marks := log.marks + more;
    forall i | 0 <= i < |marks|
      ensures Tells(sb, work, k', marks[i].txn, n', marks[i].stand) && Trusty(sb, h'[i], marks[i].stand)
    {
      if i < |log.marks| {
        TellsLater(sb, work, log.track, k', marks[i].txn, n, n', marks[i].stand);
        assert h'[i] == h[i];
      } else {
        assert h'[i] == h'[|h| + (i - |log.marks|)];
      }
    }
  }

  // ----- the answers

  /** The operation answered when the device had been in `states` states made what the last of them is marked with. */
  ghost predicate Acked(log: Diary, j: nat, states: nat) {
    && 0 < states <= |log.marks|
    && var txn := log.marks[states - 1].txn;
    0 < txn <= |log.track.of| && log.track.of[txn - 1] == j
  }

  /** Every operation that had something to commit and was answered with success is acknowledged. */
  ghost predicate Acks(sb: Superblock, work: seq<Transaction>, done: seq<Done>, log: Diary) {
    forall j | 0 <= j < |done| && j < |work| && done[j].answer.Ok? && Chosen(sb, work[j].homes) != [] :: Acked(log, j, done[j].at.states)
  }

  /** When the device came to state `i`, operation `n` had not been begun. */
  predicate Unbegun(done: seq<Done>, began: Clock, n: nat, i: nat) {
    n <= |done| && (n < |done| ==> i < Before(done, began, n).states)
  }

  /** A state of the device holds nothing of an operation that had not been begun, neither whole nor changed in place. */
  ghost predicate Timely(sb: Superblock, work: seq<Transaction>, done: seq<Done>, began: Clock, log: Diary) {
    forall n: nat, i: nat | Unbegun(done, began, n, i) && i < |log.marks| :: MadeOf(sb, work, log.track, log.marks[i], n)
  }

  /** A mark's state is made of the first `n` operations only. */
  ghost predicate MadeOf(sb: Superblock, work: seq<Transaction>, k: Track, m: Mark, n: nat) {
    m.txn <= |k.of| && (0 < m.txn ==> k.of[m.txn - 1] < n) && m.stand.loose <= Late(sb, work, Since(k, m.txn), n)
  }

  /** The answers came in order, none before the first operation was begun. */
  ghost predicate Answered(done: seq<Done>, began: Clock, now: Clock) {
    && NoLater(began, now) && (forall j | 0 <= j < |done| :: NoLater(began, done[j].at) && NoLater(done[j].at, now))
    && forall i, j | 0 <= i <= j < |done| :: NoLater(done[i].at, done[j].at)
  }

  /** What a run of operations has come to; `cur` is where the volume stands. */
  ghost predicate Worked(sb: Superblock, work: seq<Transaction>, start: Disk, h: seq<Disk>, began: Clock, done: seq<Done>, log: Diary,
                         cur: Stand) {
    && Chained(sb, work, log.track) && log.track.states[0] == start && (forall i | 0 <= i < |log.track.of| :: log.track.of[i] < |done|)
    && Logged(sb, work, log, |done|, h) && Tells(sb, work, log.track, |log.track.of|, |done|, cur)
    && Acks(sb, work, done, log) && Timely(sb, work, done, began, log)
    && forall n | 0 <= n <= |done| :: Before(done, began, n).states <= |h|
  }

  lemma AcksStay(sb: Superblock, work: seq<Transaction>, done: seq<Done>, log: Diary, log': Diary)
    requires Acks(sb, work, done, log) && log.marks <= log'.marks && Extends(log.track, log'.track)
    ensures Acks(sb, work, done, log')
  {
    hide Chosen;
    forall j | 0 <= j < |done| && j < |work| && done[j].answer.Ok? && Chosen(sb, work[j].homes) != []
      ensures Acked(log', j, done[j].at.states)
    {
      assert Acked(log, j, done[j].at.states);
    }
  }

  lemma AcksMore(sb: Superblock, work: seq<Transaction>, done: seq<Done>, log: Diary, last: Done)
    requires Acks(sb, work, done, log) && |done| < |work|
    requires last.answer.Ok? && Chosen(sb, work[|done|].homes) != [] ==> Acked(log, |done|, last.at.states)
    ensures Acks(sb, work, done + [last], log)
  {
    hide Chosen, Acked;
  }

  /** A longer account in which at most one more operation was begun. */
  lemma TimelyMore(sb: Superblock, work: seq<Transaction>, done: seq<Done>, done': seq<Done>, began: Clock, log: Diary, log': Diary,
                   h': seq<Disk>)
    requires Timely(sb, work, done, began, log) && (forall n | 0 <= n <= |done| :: Before(done, began, n).states <= |log.marks|)
    requires done <= done' && |done'| <= |done| + 1 && log.marks <= log'.marks && Extends(log.track, log'.track)
    requires Logged(sb, work, log', |done'|, h') && forall i | 0 <= i < |log'.track.of| :: log'.track.of[i] < |done'|
    ensures Timely(sb, work, done', began, log')
  {
    hide Late, Trusty, Rising;
    forall n: nat, i: nat | Unbegun(done', began, n, i) && i < |log'.marks|
      ensures MadeOf(sb, work, log'.track, log'.marks[i], n)
    {
      assert Tells(sb, work, log'.track, log'.marks[i].txn, |done'|, log'.marks[i].stand);
      if n < |done'| {
        assert Before(done', began, n) == Before(done, began, n);
        assert Unbegun(done, began, n, i) && log'.marks[i] == log.marks[i];
        assert MadeOf(sb, work, log.track, log.marks[i], n);
        assert Since(log'.track, log.marks[i].txn) == Since(log.track, log.marks[i].txn);
      }
    }
  }

  // ----- mounting again

  /** Marks for what the device went through in a mount. */
  ghost function Again(n: nat, m: Mark): seq<Mark> {
    seq(n, _ => m)
  }

  lemma WorkedMount(sb: Superblock, work: seq<Transaction>, start: Disk, h: seq<Disk>, began: Clock, done: seq<Done>, log: Diary,
                    cur: Stand, h': seq<Disk>, cur': Stand)
    requires Worked(sb, work, start, h, began, done, log, cur) && h <= h'
    requires AllStand(sb, h', |h| - 1, cur, true) && cur.state != [] && |cur.state| < U32 && ReadHead(cur.state[0], |cur.state|) == Ok(sb)
    requires cur'.loose == cur.loose && SameOutside(sb, cur'.state, cur.state)
    ensures Worked(sb, work, start, h', began, done, Diary(log.track, log.marks + Again(|h'| - |h|, Mark(|log.track.of|, cur))), cur')
  {
    hide Chained, Acks, Timely, Stands, Upright, ReadHead, Late;
    var n, k, more := |done|, log.track, Again(|h'| - |h|, Mark(|log.track.of|, cur));
    forall i | 0 <= i < |more|
      ensures Tells(sb, work, k, more[i].txn, n, more[i].stand) && Trusty(sb, h'[|h| + i], more[i].stand)
    {
      StandsRoot(sb, h'[|h| + i], cur);
    }
    LoggedMore(sb, work, log, k, n, n, h, more, h');
    AcksStay(sb, work, done, log, Diary(k, log.marks + more));
    TimelyMore(sb, work, done, done, began, log, Diary(k, log.marks + more), h');
  }

  lemma StandsRoot(sb: Superblock, d: Disk, s: Stand)
    requires Stands(sb, d, s)
    ensures Sane(sb, |d|) && |s.state| == |d| && d[0] == s.state[0]
  {
  }

  // ----- one operation

  /** The marks of a volume's book after the first, as places in the track. */
  ghost function Placed(marks: seq<Mark>, place: nat): seq<Mark>
    requires marks != []
  {
    seq(|marks| - 1, i requires 0 <= i < |marks| - 1 => Mark(place + marks[i + 1].txn, marks[i + 1].stand))
  }

  /** Whether an operation was committed, or is about to be. */
  ghost predicate Took(book: Book) {
    book.txn == 1 || book.phase.Committing?
  }

  /** A book that has seen one operation from where it was opened. */
  ghost predicate Told(sb: Superblock, book: Book, now: Stand, touched: set<nat>, next: Disk) {
    && book.marks != [] && book.txn <= 1 && (book.phase.Committing? ==> book.txn == 0)
    && (forall i, j | 0 <= i <= j < |book.marks| :: book.marks[i].txn <= book.marks[j].txn)
    && (forall i | 1 <= i < |book.marks| ::
          || (book.marks[i].txn == 0 && Loosely(now, book.marks[i].stand, touched))
          || (book.marks[i].txn == 1 && Took(book) && Whole(book.marks[i].stand, next)))
    && var s := Ahead(book.phase);
    if Took(book) then Whole(s, next) else Loosely(now, s, touched)
  }

  lemma DidTells(sb: Superblock, book: Book, book': Book, touched: set<nat>, next: Disk)
    requires book.txn == 0 && book.phase.Building? && book.marks == [Mark(0, book.phase.now)]
    requires Did(book, book', touched, next)
    requires forall i | 0 <= i < |book'.marks| :: book'.marks[i].txn <= book'.txn + if book'.phase.Committing? then 1 else 0
    requires forall i, j | 0 <= i <= j < |book'.marks| :: book'.marks[i].txn <= book'.marks[j].txn
    ensures Told(sb, book', book.phase.now, touched, next) && book'.base == book.base && book'.marks[0] == book.marks[0]
  {
    assert book'.marks[..1][0] == book.marks[0];
  }

  /** What a steady volume's book says of the disks of its history. */
  lemma BookSound(v: Volume)
    requires v.Valid() && v.Steady()
    ensures v.book.base < |v.cache.store.history| == v.book.base + |v.book.marks|
    ensures forall i | 0 <= i < |v.book.marks| :: Trusty(v.sb, v.cache.store.history[v.book.base + i], v.book.marks[i].stand)
    ensures forall i | 0 <= i < |v.book.marks| :: v.book.marks[i].txn <= v.book.txn + if v.book.phase.Committing? then 1 else 0
    ensures forall i, j | 0 <= i <= j < |v.book.marks| :: v.book.marks[i].txn <= v.book.marks[j].txn
  {
    hide Secure, Stands, Upright, ReadHead, Coherent, Timed, Quiet, Stageable, CacheModel.View, Dirty, RecoversTo, Forged, Collides;
    BookShape(v.sb, v.book, v.cache.View(), v.cache.Waiting(), v.cache.store.history, v.Steady());
    forall i | 0 <= i < |v.book.marks|
      ensures Trusty(v.sb, v.cache.store.history[v.book.base + i], v.book.marks[i].stand)
    {
      EveryStopRecovers(v, v.book.base + i);
    }
  }

  lemma BookShape(sb: Superblock, book: Book, view: Disk, dirty: set<nat>, h: seq<Disk>, calm: bool)
    requires Secure(sb, book, view, dirty, h, calm)
    ensures book.base < |h| == book.base + |book.marks|
    ensures forall i | 0 <= i < |book.marks| :: book.marks[i].txn <= book.txn + if book.phase.Committing? then 1 else 0
    ensures forall i, j | 0 <= i <= j < |book.marks| :: book.marks[i].txn <= book.marks[j].txn
    ensures forall i | 0 <= i < |h| :: |h[i]| == |view|
  {
    hide Stands, Holds, Owned, PhaseOwned, Upright, Calm;
  }

  /** The track after an operation. */
  ghost function Tracked(k: Track, book: Book, next: Disk, j: nat): Track {
    if Took(book) then Longer(k, next, j) else k
  }

  /** The marks of one operation, as places in the track it leaves. */
  lemma PlacedTell(sb: Superblock, work: seq<Transaction>, k: Track, n: nat, now: Stand, book: Book, next: Disk, h: seq<Disk>)
    requires n < |work| && Tells(sb, work, k, |k.of|, n, now) && (forall i | 0 <= i < |k.of| :: k.of[i] < n)
    requires Told(sb, book, now, InPlace(sb, work[n].data), next) && |h| == book.base + |book.marks|
    requires forall i | 0 <= i < |book.marks| :: Trusty(sb, h[book.base + i], book.marks[i].stand)
    ensures var k', more := Tracked(k, book, next, n), Placed(book.marks, |k.of|);
      && Extends(k, k') && |k'.states| == |k'.of| + 1 && Rising(more)
      && (forall i | 0 <= i < |more| :: |k.of| <= more[i].txn)
      && (forall i | 0 <= i < |more| ::
            Tells(sb, work, k', more[i].txn, n + 1, more[i].stand) && Trusty(sb, h[book.base + 1 + i], more[i].stand))
      && Tells(sb, work, k', |k'.of|, n + 1, Ahead(book.phase))
  {
    hide Late, InPlace, Trusty;
    var k', more := Tracked(k, book, next, n), Placed(book.marks, |k.of|);
    assert Since(k', |k.of|) == Since(k, |k.of|) <= n;
    LateGrows(sb, work, Since(k, |k.of|), n, n + 1);
    forall i | 0 <= i < |more|
      ensures Tells(sb, work, k', more[i].txn, n + 1, more[i].stand) && Trusty(sb, h[book.base + 1 + i], more[i].stand)
    {
      assert Trusty(sb, h[book.base + (i + 1)], book.marks[i + 1].stand);
    }
  }

  lemma WorkedOperation(sb: Superblock, work: seq<Transaction>, start: Disk, h: seq<Disk>, began: Clock, done: seq<Done>, log: Diary,
                        now: Stand, shown: Disk, book: Book, next: Disk, h': seq<Disk>, last: Done)
    requires Worked(sb, work, start, h, began, done, log, now) && |done| < |work| && h <= h' && last.at.states == |h'|
    requires Told(sb, book, now, InPlace(sb, work[|done|].data), next) && |h'| == book.base + |book.marks| && book.base == |h| - 1
    requires forall i | 0 <= i < |book.marks| :: Trusty(sb, h'[book.base + i], book.marks[i].stand)
    requires Shows(sb, shown, now) && Gives(sb, shown, work[|done|], next)
    requires last.answer.Ok? && Chosen(sb, work[|done|].homes) != [] ==> book.txn == 1 && Newest(book)
    requires book.marks[0].txn == 0
    ensures Worked(sb, work, start, h', began, done + [last],
                   Diary(Tracked(log.track, book, next, |done|), log.marks + Placed(book.marks, |log.track.of|)), Ahead(book.phase))
  {
    hide Tells, Trusty, Gives, Late, InPlace, Chosen, Told, Timely, Acks, Chained, Logged, Rising, Shows, Newest, Agrees, Ahead;
    var n, k := |done|, log.track;
    var k', more := Tracked(k, book, next, n), Placed(book.marks, |k.of|);
    var log', done' := Diary(k', log.marks + more), done + [last];
    PlacedTell(sb, work, k, n, now, book, next, h');
    MarksBelow(sb, work, log, n, h);
    LoggedMore(sb, work, log, k', n, n + 1, h, more, h');
    if k' != k {
      ShownAgrees(sb, work, k, n, now, shown);
      ChainedStep(sb, work, k, shown, next, n);
    }
    AcksStay(sb, work, done, log, log');
    if last.answer.Ok? && Chosen(sb, work[n].homes) != [] {
      NewestPlaced(book, |k.of|);
    }
    AcksMore(sb, work, done, log', last);
    TimelyMore(sb, work, done, done', began, log, log', h');
    forall m | 0 <= m <= |done'|
      ensures Before(done', began, m).states <= |h'|
    {
      if m <= |done| {
        assert Before(done', began, m) == Before(done, began, m);
      }
    }
  }

  lemma MarksBelow(sb: Superblock, work: seq<Transaction>, log: Diary, n: nat, h: seq<Disk>)
    requires Logged(sb, work, log, n, h)
    ensures |log.marks| == |h| && |log.track.states| == |log.track.of| + 1 && forall i | 0 <= i < |log.marks| :: log.marks[i].txn <= |log.track.of|
  {
    hide Trusty, Late;
    assert Tells(sb, work, log.track, log.marks[0].txn, n, log.marks[0].stand);
  }

  lemma ShownAgrees(sb: Superblock, work: seq<Transaction>, k: Track, n: nat, now: Stand, shown: Disk)
    requires Tells(sb, work, k, |k.of|, n, now) && Shows(sb, shown, now)
    ensures Agrees(sb, shown, k.states[|k.of|], Late(sb, work, Since(k, |k.of|), n))
  {
    hide Late;
  }

  lemma NewestPlaced(book: Book, place: nat)
    requires book.marks != [] && book.marks[0].txn == 0 && Newest(book) && book.txn == 1
    ensures var more := Placed(book.marks, place); more != [] && more[|more| - 1].txn == place + 1
  {
  }

  // ----- the service

  /** A volume between operations: steady, with no frame held and nothing shown committed that the device does not hold so. */
  ghost predicate Serving(v: Volume)
    reads v, v.cache, v.cache.store
  {
    && v.Valid() && v.Steady() && Free(v.cache.slots) && MAX_STAGED < v.sb.journalBlocks
    && Settled(v.sb, v.book.phase, v.cache.View(), v.cache.store.blocks)
  }

  /** An operation succeeds if and only if it fits, unless the device fails between its beginning and its answer. */
  ghost predicate Fair(sb: Superblock, n: nat, t: Transaction, answer: Result<(), FsError>, before: nat, after: nat) {
    (answer.Ok? ==> Fitting(sb, n, t)) && (answer.Err? ==> before < after || !Fitting(sb, n, t))
  }

  /** The answers came in order, each was fair, and the device failed during the first operation that was not answered, if any. */
  ghost predicate Served(sb: Superblock, n: nat, work: seq<Transaction>, began: Clock, done: seq<Done>, now: Clock) {
    && |done| <= |work| && Answered(done, began, now) && (|done| < |work| ==> Before(done, began, |done|).faults < now.faults)
    && AllFair(sb, n, work, began, done)
  }

  ghost predicate AllFair(sb: Superblock, n: nat, work: seq<Transaction>, began: Clock, done: seq<Done>) {
    |done| <= |work| && forall j | 0 <= j < |done| :: Fair(sb, n, work[j], done[j].answer, Before(done, began, j).faults, done[j].at.faults)
  }

  /** A steady volume shows nothing committed while it builds, and stands by its superblock. */
  lemma SteadyShows(sb: Superblock, book: Book, view: Disk, dirty: set<nat>, h: seq<Disk>)
    requires Secure(sb, book, view, dirty, h, true)
    ensures Sane(sb, |view|) && (book.phase.Building? ==> Committed(sb, view).None?)
    ensures Ahead(book.phase).state != [] && Ahead(book.phase).state[0] == book.root && |Ahead(book.phase).state| == |view|
  {
    hide Stands, Ordered, Genuine, Traced, Upright, At, Sum, Homes;
  }

  /** Mounts the cache again, as is done before every operation. */
  method MountAgain(w: Volume, ghost work: seq<Transaction>, ghost start: Disk, ghost began: Clock, ghost done: seq<Done>, ghost log: Diary)
    returns (next: Option<Volume>, ghost log': Diary, ghost cur: Stand)
    requires Serving(w) && Worked(w.sb, work, start, w.cache.store.history, began, done, log, Ahead(w.book.phase))
    modifies w.cache.Repr()
    ensures w.cache.Valid() && w.cache.store.Ages() && |w.cache.View()| == |old(w.cache.View())|
    ensures Worked(w.sb, work, start, w.cache.store.history, began, done, log', cur)
    ensures next.Some? ==>
              && fresh(next.value) && next.value.cache == w.cache && next.value.sb == w.sb && !w.cache.store.refused
              && Serving(next.value) && Reopened(next.value, cur) && next.value.book.phase.now == cur
              && Shows(w.sb, w.cache.View(), cur) && Committed(w.sb, w.cache.View()).None?
    ensures next.None? ==> w.cache.store.Failed()
  {
    hide Secure, Coherent, Timed, ReadHead, Quiet, Stageable, CacheModel.View, Dirty, Committed, Free, Worked, Remounting, AllStand, Announces,
      Shows, SameOutside;
    ghost var view, h, d, s := w.cache.View(), w.cache.store.history, w.cache.store.blocks, Ahead(w.book.phase);
    SteadyShows(w.sb, w.book, view, w.cache.Waiting(), h);
    var r := Remount(w);
    RemountingStands(w.sb, w.book.phase, view, d, w.cache.store.history, |h| - 1);
    log' := Diary(log.track, log.marks + Again(|w.cache.store.history| - |h|, Mark(|log.track.of|, s)));
    cur := if r.Ok? then r.value.0.book.phase.now else s;
    SameAsItself(w.sb, s.state);
    WorkedMount(w.sb, work, start, h, began, done, log, s, w.cache.store.history, cur);
    if r.Err? || w.cache.store.refused {
      return None, log', cur;
    }
    ReopenedShows(r.value.0);
    SameAsItself(w.sb, cur.state);
    return Some(r.value.0), log', cur;
  }

  lemma RemountingStands(sb: Superblock, phase: Phase, view: Disk, d: Disk, h: seq<Disk>, base: nat)
    requires Remounting(sb, phase, view, d, h, base, true) && Settled(sb, phase, view, d)
    ensures AllStand(sb, h, base, Ahead(phase), true)
  {
    hide AllStand, Settled, WaitsAlone;
  }

  /** While building, what is shown is the durable state but at loose blocks. */
  lemma ReopenedShows(v: Volume)
    requires v.Valid() && v.book.phase.Building?
    ensures Shows(v.sb, v.cache.View(), v.book.phase.now)
  {
    hide Stands, ReadHead, Owned, PhaseOwned, Upright, Calm, Coherent, Timed, Genuine, Traced, Ordered;
  }

  /** One operation: mount the cache again, and run it as far as it goes. */
  method Operate(w: Volume, work: seq<Transaction>, ghost start: Disk, ghost began: Clock, done: seq<Done>, ghost log: Diary)
    returns (next: Option<Volume>, done': seq<Done>, ghost log': Diary, ghost cur: Stand)
    requires Serving(w) && Worked(w.sb, work, start, w.cache.store.history, began, done, log, Ahead(w.book.phase)) && |done| < |work|
    modifies w.Repr()
    ensures w.cache.Valid() && w.cache.store.Ages() && |w.cache.View()| == |old(w.cache.View())|
    ensures !w.cache.store.refused ==> Worked(w.sb, work, start, w.cache.store.history, began, done', log', cur)
    ensures next.Some? ==>
              && fresh(next.value) && next.value.cache == w.cache && next.value.sb == w.sb && !w.cache.store.refused
              && Serving(next.value) && cur == Ahead(next.value.book.phase) && |done'| == |done| + 1 && done <= done'
              && done'[|done|].at == Now(w.cache.store)
              && Fair(w.sb, |w.cache.View()|, work[|done|], done'[|done|].answer, old(w.cache.store.faults), w.cache.store.faults)
    ensures next.None? ==> w.cache.store.Failed() && done' == done
  {
    hide Secure, Coherent, Timed, ReadHead, Quiet, Stageable, CacheModel.View, Dirty, Committed, Free, Worked, Announces, Shows, SameOutside,
      Did, Told, Trusty, InPlace, Applied, Newest, Chosen, Fitting;
    next, log', cur := MountAgain(w, work, start, began, done, log);
    done' := done;
    if next.None? {
      return;
    }
    ghost var v, shown, h := next.value, w.cache.View(), w.cache.store.history;
    ghost var book := v.book;
    var answer;
    ghost var result;
    answer, result := Transact(next.value, work[|done|]);
    if w.cache.store.refused {
      return None, done, log', cur;
    }
    BookSound(v);
    DidTells(w.sb, book, v.book, InPlace(w.sb, work[|done|].data), result);
    var last := Done(answer, Now(w.cache.store));
    WorkedOperation(w.sb, work, start, h, began, done, log', book.phase.now, shown, v.book, result, w.cache.store.history, last);
    done' := done + [last];
    log' := Diary(Tracked(log'.track, v.book, result, |done|), log'.marks + Placed(v.book.marks, |log'.track.of|));
    cur := Ahead(v.book.phase);
  }

  /** A volume just mounted on its device, which passed only through disks that recover to what the volume shows. */
  ghost predicate Begins(v: Volume)
    reads v, v.cache, v.cache.store
  {
    && v.Valid() && v.Steady() && Pristine(v) && v.book.base == |v.cache.store.history| - 1 && Free(v.cache.slots)
    && Intact(v.sb, v.cache.View(), v.cache.store.history)
  }

  /** A device that has gone through `h` in a mount has its superblock, and each of its states recovers to `view`. */
  ghost predicate Intact(sb: Superblock, view: Disk, h: seq<Disk>) {
    && h != [] && Sane(sb, |h[0]|) && Recovered(sb, h[0]) == Ok(view) && AllStand(sb, h, 0, FirstStand(sb, h[0]), true)
    && view != [] && |view| < U32 && ReadHead(view[0], |view|) == Ok(sb)
  }

  /** After a mount every state of the device is accounted for. */
  lemma IntactWorked(sb: Superblock, work: seq<Transaction>, view: Disk, h: seq<Disk>, began: Clock, cur: Stand)
    requires Intact(sb, view, h) && began.states == |h| && cur.state == view && cur.loose == {}
    ensures Worked(sb, work, view, h, began, [], Diary(Track([view], []), Again(|h|, Mark(0, FirstStand(sb, h[0])))), cur)
  {
    hide ReadHead, Late, Stands, Upright, Recovered, Committed;
    var s := FirstStand(sb, h[0]);
    SameAsItself(sb, view);
    forall i | 0 <= i < |h|
      ensures Trusty(sb, h[i], s)
    {
      StandsRoot(sb, h[i], s);
    }
    assert Tells(sb, work, Track([view], []), 0, 0, cur);
  }

  /**
   Runs operations in turn on a volume just mounted, whatever comes of each, until a
   mount fails. Each succeeds if and only if it fits, unless the device fails during it;
   and every state of the device, those of the first mount included, is accounted for.
   */
  method Work(v: Volume, work: seq<Transaction>) returns (done: seq<Done>, ghost log: Diary, ghost cur: Stand)
    requires Begins(v) && MAX_STAGED < v.sb.journalBlocks
    modifies v.Repr()
    ensures v.cache.Valid() && v.cache.store.Ages() && |v.cache.View()| == |old(v.cache.View())|
    ensures Served(v.sb, |v.cache.View()|, work, old(Now(v.cache.store)), done, Now(v.cache.store))
    ensures !v.cache.store.refused ==>
              Worked(v.sb, work, old(v.cache.View()), v.cache.store.history, old(Now(v.cache.store)), done, log, cur)
  {
    hide Secure, Coherent, Timed, ReadHead, Quiet, Stageable, CacheModel.View, Dirty, Free, Worked, Fitting, Intact, Fair, AllFair,
      Answered, Recovered, Committed;
    ghost var start, began := v.cache.View(), Now(v.cache.store);
    done, cur := [], v.book.phase.now;
    log := Diary(Track([start], []), Again(|v.cache.store.history|, Mark(0, FirstStand(v.sb, v.cache.store.history[0]))));
    IntactWorked(v.sb, work, start, v.cache.store.history, began, cur);
    NothingServed(v.sb, |start|, work, began);
    var w := v;
    for j := 0 to |work|
      invariant w.cache == v.cache && w.sb == v.sb && Serving(w) && (w == v || fresh(w)) && v.cache.store.Ages()
      invariant |done| == j && |v.cache.View()| == |start| && cur == Ahead(w.book.phase)
      invariant Answered(done, began, Now(v.cache.store)) && AllFair(v.sb, |start|, work, began, done)
      invariant Before(done, began, j) == Now(v.cache.store)
      invariant Worked(v.sb, work, start, v.cache.store.history, began, done, log, cur)
    {
      ghost var was, now := done, Now(v.cache.store);
      var next;
      next, done, log, cur := Operate(w, work, start, began, done, log);
      if next.None? {
        ServedLater(was, began, now, Now(v.cache.store));
        return;
      }
      AnsweredMore(began, was, now, done);
      FairMore(v.sb, |start|, work, began, was, now, done);
      w := next.value;
    }
  }

  lemma NothingServed(sb: Superblock, n: nat, work: seq<Transaction>, now: Clock)
    ensures Answered([], now, now) && AllFair(sb, n, work, now, [])
  {
  }

  lemma ServedLater(done: seq<Done>, began: Clock, now: Clock, now': Clock)
    requires Answered(done, began, now) && NoLater(now, now')
    ensures Answered(done, began, now')
  {
  }

  lemma AnsweredMore(began: Clock, done: seq<Done>, now: Clock, done': seq<Done>)
    requires Answered(done, began, now) && |done'| == |done| + 1 && done <= done' && NoLater(now, done'[|done|].at)
    ensures Answered(done', began, done'[|done|].at)
  {
    forall j | 0 <= j < |done|
      ensures done'[j] == done[j] && NoLater(done[j].at, done'[|done|].at)
    {
    }
  }

  lemma FairMore(sb: Superblock, n: nat, work: seq<Transaction>, began: Clock, done: seq<Done>, now: Clock, done': seq<Done>)
    requires AllFair(sb, n, work, began, done) && Before(done, began, |done|) == now
    requires |done'| == |done| + 1 <= |work| && done <= done'
    requires Fair(sb, n, work[|done|], done'[|done|].answer, now.faults, done'[|done|].at.faults)
    ensures AllFair(sb, n, work, began, done')
  {
    hide Fair;
    forall j | 0 <= j < |done'|
      ensures Fair(sb, n, work[j], done'[j].answer, Before(done', began, j).faults, done'[j].at.faults)
    {
      assert Before(done', began, j) == Before(done, began, j);
      if j < |done| {
        assert done'[j] == done[j];
      }
    }
  }
}
