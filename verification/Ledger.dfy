/**
 The crash argument, on values: what the cache shows (`view`), what the device
 holds (`d`) and what waits (`dirty`) while a transaction is built, committed,
 carried home and cleared, and why every device write in between leaves a disk
 that recovers to the last durable state or to the next one.
 */
module Ledger {
  import opened Words
  import opened Blocks
  import opened Superblocks
  import opened CacheModel
  import opened Journal
  import opened Recovery

  /**
   Where the commit header a device may still carry came from. `Known`: if the
   device announces a transaction at all it is by `head`, which was committed over
   `payload`. `Unknown`: it was there before anybody looked.
   */
  datatype Origin = Unknown | Known(head: Block, payload: seq<Block>)

  /** What a device must recover to: `state`, but for the `loose` blocks, which the journal does not cover. */
  datatype Stand = Stand(state: Disk, loose: set<nat>, origin: Origin)

  /**
   Where a volume is in its transaction. `Building`: nothing is committed.
   `Committing`: the cache shows a whole commit; until its block reaches the device
   the disk stands where it `was`, and from then on where it `will`.
   */
  datatype Phase =
    | Building(now: Stand)
    | Committing(was: Stand, will: Stand)

  /** What one state of the device must recover to. */
  datatype Mark = Mark(txn: nat, stand: Stand)

  /** Mounting `d` gives the state everywhere outside the log and the loose blocks, and `d` has its superblock. */
  ghost predicate RecoversTo(sb: Superblock, d: Disk, s: Stand) {
    && Sane(sb, |d|) && |s.state| == |d| && Contained(sb, d) && Recovered(sb, d).Ok?
    && d[0] == s.state[0]
    && forall b | 0 <= b < |d| && !InLog(sb, b) && b !in s.loose :: Recovered(sb, d).value[b] == s.state[b]
  }

  /** A known header was committed over its payload, which replays to the state but at loose blocks. */
  ghost predicate Genuine(sb: Superblock, s: Stand) {
    s.origin.Known? && Announces(s.origin.head, sb.journalBlocks) ==>
      var homes := Homes(s.origin.head);
      && |s.origin.payload| == |homes| && Stored(s.origin.head) == Sum(s.origin.head, s.origin.payload)
      && AllInRange(sb, homes) && Outside(sb, homes)
      && forall i | 0 <= i < |homes| && homes[i] !in s.loose ::
           homes[i] < |s.state| && s.state[homes[i]] == s.origin.payload[Last(homes, homes[i]) - 1]
  }

  /** If the device announces a transaction, it is by the header known of. */
  predicate Traced(sb: Superblock, d: Disk, o: Origin)
    requires Sane(sb, |d|)
  {
    o.Known? && Announces(d[sb.journalStart], sb.journalBlocks) ==> d[sb.journalStart] == o.head
  }

  /** The device commits a transaction, but not over the payload its header is known to have been committed over. */
  predicate Forged(sb: Superblock, d: Disk, o: Origin)
    requires Sane(sb, |d|)
  {
    Committed(sb, d).Some? && !(o.Known? && o.payload == Payload(sb, d, Count(d[sb.journalStart])))
  }

  /** The device holds the state itself, outside the log and the loose blocks. */
  ghost predicate Rests(sb: Superblock, d: Disk, s: Stand) {
    && Sane(sb, |d|) && |s.state| == |d| && 0 !in s.loose && Genuine(sb, s) && Traced(sb, d, s.origin)
    && forall b | 0 <= b < |d| && !InLog(sb, b) && b !in s.loose :: d[b] == s.state[b]
  }

  /** What the device commits would put something else than the state at a block that is not loose, or go astray. */
  ghost predicate Harmful(sb: Superblock, d: Disk, s: Stand)
    requires Sane(sb, |d|) && |s.state| == |d|
  {
    && Committed(sb, d).Some?
    && var homes := Homes(d[sb.journalStart]);
    || !AllInRange(sb, homes) || !Outside(sb, homes)
    || exists i | 0 <= i < |homes| && homes[i] !in s.loose && homes[i] < |d| ::
         Final(sb, d, homes, homes[i]) != s.state[homes[i]]
  }

  /** A device at rest fails to recover exactly when what it commits is harmful. */
  lemma BreaksExactly(sb: Superblock, d: Disk, s: Stand)
    requires Rests(sb, d, s)
    ensures RecoversTo(sb, d, s) <==> !Harmful(sb, d, s)
  {
    hide Committed, Announces, Replay, Genuine, Traced, Sum, At, Final, Homes;
    if Committed(sb, d).None? {
      assert Recovered(sb, d) == Ok(d);
    } else {
      var homes := Homes(d[sb.journalStart]);
      if AllInRange(sb, homes) && Outside(sb, homes) {
        ReplaysExactly(sb, d, s, homes);
      }
    }
  }

  lemma ReplaysExactly(sb: Superblock, d: Disk, s: Stand, homes: seq<nat>)
    requires Rests(sb, d, s) && Committed(sb, d).Some? && homes == Homes(d[sb.journalStart])
    requires AllInRange(sb, homes) && Outside(sb, homes)
    ensures RecoversTo(sb, d, s) <==> forall i | 0 <= i < |homes| && homes[i] !in s.loose ::
              Final(sb, d, homes, homes[i]) == s.state[homes[i]]
  {
    hide Committed, Announces, Replay, Genuine, Traced, Sum, At, Homes;
    forall b | 0 <= b < |d| && !InLog(sb, b) && b !in s.loose
      ensures Recovered(sb, d).value[b] == Final(sb, d, homes, b)
      ensures b !in homes ==> Final(sb, d, homes, b) == s.state[b]
    {
      RecoveredAt(sb, d, b);
    }
    if forall i | 0 <= i < |homes| && homes[i] !in s.loose :: Final(sb, d, homes, homes[i]) == s.state[homes[i]] {
      forall b | 0 <= b < |d| && !InLog(sb, b) && b !in s.loose
        ensures Recovered(sb, d).value[b] == s.state[b]
      {
        if b in homes {
          assert homes[Last(homes, b) - 1] == b;
        }
      }
    }
  }

  /** What is committed over the payload known does no harm. */
  lemma GenuineIsHarmless(sb: Superblock, d: Disk, s: Stand)
    requires Rests(sb, d, s) && !Forged(sb, d, s.origin)
    ensures !Harmful(sb, d, s)
  {
    hide Sum, At, Homes, Last, Announces, Stored, InLog, InRange;
    if Committed(sb, d).Some? {
      var homes := Homes(d[sb.journalStart]);
      assert d[sb.journalStart] == s.origin.head;
      forall i | 0 <= i < |homes| && homes[i] !in s.loose
        ensures Final(sb, d, homes, homes[i]) == s.state[homes[i]]
      {
        var k := Last(homes, homes[i]);
        assert d[sb.journalStart + k] == Payload(sb, d, |homes|)[k - 1];
      }
    }
  }

  /** Two payloads one header's checksum cannot tell apart. */
  ghost predicate Collides(head: Block, p: seq<Block>, q: seq<Block>) {
    |p| == |q| <= MAX_STAGED && p != q && Sum(head, p) == Sum(head, q)
  }

  /** Under a known header the exception is a collision of the checksum, and here it is. */
  lemma ForgedCollides(sb: Superblock, d: Disk, s: Stand)
    requires Sane(sb, |d|) && Genuine(sb, s) && Traced(sb, d, s.origin) && s.origin.Known? && Forged(sb, d, s.origin)
    ensures Collides(s.origin.head, s.origin.payload, Payload(sb, d, Count(d[sb.journalStart])))
  {
    hide Sum, At;
  }

  /** The disk recovers as it must, unless it is forged; and enough is known of it to go on from it. */
  ghost predicate Stands(sb: Superblock, d: Disk, s: Stand) {
    && Sane(sb, |d|) && |s.state| == |d| && 0 !in s.loose && d[0] == s.state[0] && Genuine(sb, s) && Traced(sb, d, s.origin)
    && (RecoversTo(sb, d, s) || Forged(sb, d, s.origin))
  }

  lemma RestsStands(sb: Superblock, d: Disk, s: Stand)
    requires Rests(sb, d, s)
    ensures Stands(sb, d, s)
  {
    hide Harmful, Forged, RecoversTo, Genuine, Traced;
    BreaksExactly(sb, d, s);
    if !Forged(sb, d, s.origin) {
      GenuineIsHarmless(sb, d, s);
    }
  }

  ghost predicate Builds(sb: Superblock, view: Disk, d: Disk, dirty: set<nat>, s: Stand) {
    && Rests(sb, d, s) && |view| == |d|
    && (forall b | 0 <= b < |d| && !InLog(sb, b) && b !in s.loose :: view[b] == s.state[b])
    && (sb.journalStart in dirty ==> !Announces(view[sb.journalStart], sb.journalBlocks))
  }

  /** The commit block on the device is the one the cache shows. */
  predicate Landed(sb: Superblock, view: Disk, d: Disk)
    requires Sane(sb, |d|) && |view| == |d|
  {
    d[sb.journalStart] == view[sb.journalStart]
  }

  ghost predicate Distinct(homes: seq<nat>) {
    forall i, j | 0 <= i < j < |homes| :: homes[i] != homes[j]
  }

  /** What a whole commit in `view` makes of the disk. */
  ghost predicate Promises(sb: Superblock, view: Disk, will: Stand) {
    && Sane(sb, |view|) && |will.state| == |view| && Committed(sb, view).Some?
    && var homes := Homes(view[sb.journalStart]);
    && AllInRange(sb, homes) && Outside(sb, homes) && Distinct(homes)
    && will.loose == {} && will.origin == Known(view[sb.journalStart], Payload(sb, view, |homes|))
    && forall b | 0 <= b < |view| && !InLog(sb, b) && b in homes :: will.state[b] == Final(sb, view, homes, b)
  }

  ghost predicate Commits(sb: Superblock, view: Disk, d: Disk, was: Stand, will: Stand) {
    && |view| == |d| && Promises(sb, view, will)
    && var homes := Homes(view[sb.journalStart]);
    && (forall b | 0 <= b < |d| && InLog(sb, b) && b != sb.journalStart :: view[b] == d[b])
    && (forall b | 0 <= b < |d| && !InLog(sb, b) && b !in homes :: view[b] == d[b] == will.state[b])
    && (!Landed(sb, view, d) ==> Rests(sb, d, was) && forall b | 0 <= b < |d| && b in homes :: view[b] == d[b])
  }

  ghost predicate Holds(sb: Superblock, phase: Phase, view: Disk, d: Disk, dirty: set<nat>) {
    match phase
    case Building(now) => Builds(sb, view, d, dirty, now)
    case Committing(was, will) => Commits(sb, view, d, was, will)
  }

  ghost function MarkOf(sb: Superblock, phase: Phase, txn: nat, view: Disk, d: Disk): Mark
    requires Sane(sb, |d|) && |view| == |d|
  {
    match phase
    case Building(now) => Mark(txn, now)
    case Committing(was, will) => if Landed(sb, view, d) then Mark(txn + 1, will) else Mark(txn, was)
  }

  /** A promise kept is genuine: its header is committed over its payload, and replays to it. */
  lemma PromiseIsGenuine(sb: Superblock, view: Disk, will: Stand)
    requires Promises(sb, view, will)
    ensures Genuine(sb, will)
  {
    hide Sum, At, Committed, Announces, Homes;
    CommittedMeans(sb, view);
    var homes := Homes(view[sb.journalStart]);
    forall i | 0 <= i < |homes|
      ensures homes[i] < |will.state| && will.state[homes[i]] == will.origin.payload[Last(homes, homes[i]) - 1]
    {
      assert InRange(sb, homes[i]) && !InLog(sb, homes[i]);
    }
  }

  lemma CommittedMeans(sb: Superblock, d: Disk)
    requires Sane(sb, |d|) && Committed(sb, d).Some?
    ensures Announces(d[sb.journalStart], sb.journalBlocks)
    ensures Stored(d[sb.journalStart]) == Sum(d[sb.journalStart], Payload(sb, d, Count(d[sb.journalStart])))
  {
    hide Sum, At;
  }

  /** Once landed, the device recovers to what the commit promises, and its header is what it is known to be. */
  lemma LandedStands(sb: Superblock, view: Disk, d: Disk, was: Stand, will: Stand)
    requires Commits(sb, view, d, was, will) && Landed(sb, view, d)
    ensures Stands(sb, d, will) && !Forged(sb, d, will.origin) && RecoversTo(sb, d, will)
  {
    hide Announces, Replay, Sum, At, Genuine;
    PromiseIsGenuine(sb, view, will);
    var homes := Homes(view[sb.journalStart]);
    assert SameLog(sb, view, d);
    SameLogCommits(sb, view, d);
    assert Payload(sb, d, |homes|) == Payload(sb, view, |homes|);
    hide Committed;
    forall b | 0 <= b < |d| && !InLog(sb, b)
      ensures Recovered(sb, d).value[b] == will.state[b]
    {
      RecoveredAt(sb, d, b);
    }
    assert d[0] == will.state[0];
  }

  /** In every phase that holds, the device stands where its mark says. */
  lemma HoldsStands(sb: Superblock, phase: Phase, txn: nat, view: Disk, d: Disk, dirty: set<nat>)
    requires Holds(sb, phase, view, d, dirty)
    ensures Sane(sb, |d|) && |view| == |d|
    ensures Stands(sb, d, MarkOf(sb, phase, txn, view, d).stand)
  {
    hide Stands, Rests;
    match phase
    case Building(now) => BuildsRests(sb, view, d, dirty, now);
    case Committing(was, will) =>
      if Landed(sb, view, d) {
        LandedStands(sb, view, d, was, will);
      } else {
        RestsStands(sb, d, was);
      }
  }

  lemma BuildsRests(sb: Superblock, view: Disk, d: Disk, dirty: set<nat>, s: Stand)
    requires Builds(sb, view, d, dirty, s)
    ensures Sane(sb, |d|) && |view| == |d| && Stands(sb, d, s)
  {
    hide Stands;
    RestsStands(sb, d, s);
  }

  /** While building, writing any waiting block keeps the device at rest. */
  lemma BuildStep(sb: Superblock, view: Disk, d: Disk, dirty: set<nat>, s: Stand, b: nat)
    requires Builds(sb, view, d, dirty, s) && b in dirty && b < |d|
    ensures Builds(sb, view, d[b := view[b]], dirty, s)
  {
    hide Genuine, Announces;
  }

  /** Once the commit is in the cache, any write of a waiting block keeps the promise. */
  lemma CommitStep(sb: Superblock, view: Disk, d: Disk, was: Stand, will: Stand, b: nat)
    requires Commits(sb, view, d, was, will) && b < |d|
    ensures Commits(sb, view, d[b := view[b]], was, will)
  {
    hide Rests, Committed, Homes, Final, Promises;
    PromiseSizes(sb, view, will);
    var e := d[b := view[b]];
    if !Landed(sb, view, e) {
      assert e == d;
    }
  }

  lemma PromiseSizes(sb: Superblock, view: Disk, will: Stand)
    requires Promises(sb, view, will)
    ensures Sane(sb, |view|) && |will.state| == |view| && Committed(sb, view).Some?
  {
  }

  // ----- whole histories

  /**
   The marks of a run: one for each state of the device from `base` on. `root` is
   the superblock's block; `known`, that every header's origin is.
   */
  datatype Book = Book(base: nat, root: Block, known: bool, txn: nat, phase: Phase, marks: seq<Mark>)

  /** A later mark is of a later transaction, or of the same state with more blocks loose. */
  ghost predicate Before(m: Mark, m': Mark) {
    m.txn < m'.txn || (m.txn == m'.txn && m'.stand == m.stand.(loose := m'.stand.loose) && m.stand.loose <= m'.stand.loose)
  }

  ghost predicate Ordered(marks: seq<Mark>, now: Mark) {
    && (forall i, j | 0 <= i <= j < |marks| :: Before(marks[i], marks[j]))
    && forall i | 0 <= i < |marks| :: Before(marks[i], now)
  }

  ghost predicate Sized(sb: Superblock, history: seq<Disk>, view: Disk) {
    && Sane(sb, |view|) && 0 < |history|
    && forall k | 0 <= k < |history| :: |history[k]| == |view|
  }

  /** The stand has the volume's superblock and, if `known`, a header of known origin. */
  ghost predicate Owned(s: Stand, root: Block, known: bool) {
    s.state != [] && s.state[0] == root && (known ==> s.origin.Known?)
  }

  ghost predicate PhaseOwned(phase: Phase, root: Block, known: bool) {
    match phase
    case Building(now) => Owned(now, root, known)
    case Committing(was, will) => Owned(was, root, known) && Owned(will, root, known)
  }

  /** Every state of the device so far stands where its mark says, and the phase holds now. */
  ghost predicate Sound(sb: Superblock, book: Book, view: Disk, dirty: set<nat>, history: seq<Disk>) {
    && Sized(sb, history, view) && |history| == book.base + |book.marks| && book.base < |history|
    && var d := history[|history| - 1];
    && Holds(sb, book.phase, view, d, dirty) && PhaseOwned(book.phase, book.root, book.known)
    && Ordered(book.marks, MarkOf(sb, book.phase, book.txn, view, d))
    && forall i | 0 <= i < |book.marks| ::
         Stands(sb, history[book.base + i], book.marks[i].stand) && Owned(book.marks[i].stand, book.root, book.known)
  }

  ghost function Noted(sb: Superblock, book: Book, view: Disk, e: Disk): Book
    requires Sane(sb, |e|) && |view| == |e|
  {
    book.(marks := book.marks + [MarkOf(sb, book.phase, book.txn, view, e)])
  }

  /** One device write of a waiting block keeps every promise. */
  lemma StepSound(sb: Superblock, book: Book, view: Disk, dirty: set<nat>, history: seq<Disk>, e: Disk)
    requires Sound(sb, book, view, dirty, history) && SpillStep(history[|history| - 1], e, view, dirty)
    ensures |e| == |view| && Sound(sb, Noted(sb, book, view, e), view, dirty, history + [e])
  {
    hide Stands, Holds, Before, Ordered, MarkOf, PhaseOwned, Owned;
    var d := history[|history| - 1];
    var b :| b in dirty && b < |view| == |d| && e == d[b := view[b]];
    PhaseStep(sb, book.phase, book.txn, view, d, dirty, b);
    HoldsStands(sb, book.phase, book.txn, view, e, dirty);
    MarkOwned(sb, book.phase, book.root, book.known, book.txn, view, e);
    OrderedGrows(book.marks, MarkOf(sb, book.phase, book.txn, view, d), MarkOf(sb, book.phase, book.txn, view, e));
  }

  lemma MarkOwned(sb: Superblock, phase: Phase, root: Block, known: bool, txn: nat, view: Disk, d: Disk)
    requires Sane(sb, |d|) && |view| == |d| && PhaseOwned(phase, root, known)
    ensures Owned(MarkOf(sb, phase, txn, view, d).stand, root, known)
  {
  }

  lemma PhaseStep(sb: Superblock, phase: Phase, txn: nat, view: Disk, d: Disk, dirty: set<nat>, b: nat)
    requires Holds(sb, phase, view, d, dirty) && b in dirty && b < |d| && |view| == |d| && Sane(sb, |d|)
    ensures Holds(sb, phase, view, d[b := view[b]], dirty)
    ensures Before(MarkOf(sb, phase, txn, view, d), MarkOf(sb, phase, txn, view, d[b := view[b]]))
  {
    hide Commits, Builds;
    match phase
    case Building(now) => BuildStep(sb, view, d, dirty, now, b);
    case Committing(was, will) => CommitStep(sb, view, d, was, will, b);
  }

  lemma OrderedGrows(marks: seq<Mark>, now: Mark, next: Mark)
    requires Ordered(marks, now) && Before(now, next)
    ensures Ordered(marks, next) && Ordered(marks + [next], next)
  {
  }

  /** The book after the device went through `more`. */
  ghost function Carried(sb: Superblock, book: Book, view: Disk, more: seq<Disk>): Book
    requires Sane(sb, |view|) && forall k | 0 <= k < |more| :: |more[k]| == |view|
  {
    if more == [] then book
    else Noted(sb, Carried(sb, book, view, more[..|more| - 1]), view, more[|more| - 1])
  }

  // ----- what the volume does between device writes

  /** Fewer waiting blocks keep the promise. */
  lemma FewerSound(sb: Superblock, book: Book, view: Disk, dirty: set<nat>, less: set<nat>, history: seq<Disk>)
    requires Sound(sb, book, view, dirty, history) && less <= dirty
    ensures Sound(sb, book, view, less, history)
  {
    hide Stands, Ordered, Commits, Rests, Owned;
  }

  /** Building in the log: any logged block may change in the cache. */
  lemma StageSound(sb: Superblock, book: Book, view: Disk, dirty: set<nat>, history: seq<Disk>, b: nat, bytes: Block)
    requires Sound(sb, book, view, dirty, history) && book.phase.Building?
    requires b < |view| && InLog(sb, b) && b != sb.journalStart
    ensures Sound(sb, book, view[b := bytes], dirty + {b}, history)
  {
    hide Stands, Ordered, Rests, Owned;
  }

  /** The stand with one more block loose. */
  ghost function Loosened(s: Stand, b: nat): Stand {
    s.(loose := s.loose + {b})
  }

  /** File data goes straight to its block, which is loose until the next commit. */
  lemma LooseSound(sb: Superblock, book: Book, view: Disk, dirty: set<nat>, history: seq<Disk>, b: nat, bytes: Block)
    requires Sound(sb, book, view, dirty, history) && book.phase.Building?
    requires 0 < b < |view| && !InLog(sb, b)
    ensures Sound(sb, book.(phase := Building(Loosened(book.phase.now, b))), view[b := bytes], dirty + {b}, history)
  {
    hide Stands, Ordered, Committed, Homes, Sum, At;
    var d := history[|history| - 1];
    var book' := book.(phase := Building(Loosened(book.phase.now, b)));
    OrderedLater(book.marks, MarkOf(sb, book.phase, book.txn, view, d), MarkOf(sb, book'.phase, book.txn, view[b := bytes], d));
  }

  lemma OrderedLater(marks: seq<Mark>, now: Mark, next: Mark)
    requires Ordered(marks, now) && Before(now, next)
    ensures Ordered(marks, next)
  {
  }

  /** The state a commit of `homes` from `view` promises: each home its logged block, the rest as shown. */
  ghost function Next(sb: Superblock, view: Disk, homes: seq<nat>): (will: Disk)
    requires Sane(sb, |view|) && |homes| < sb.journalBlocks
    ensures |will| == |view|
    ensures forall b | 0 <= b < |view| :: will[b] == Final(sb, view, homes, b)
  {
    seq(|view|, b requires 0 <= b < |view| => Final(sb, view, homes, b))
  }

  /** Where a disk stands once a commit of `homes` from `view` by `head` has landed. */
  ghost function Pledge(sb: Superblock, view: Disk, homes: seq<nat>, head: Block): Stand
    requires Sane(sb, |view|) && |homes| < sb.journalBlocks
  {
    Stand(Next(sb, view, homes), {}, Known(head, Payload(sb, view, |homes|)))
  }

  /** With everything flushed, a commit block that describes the log opens the commit. */
  lemma PrepareSound(sb: Superblock, book: Book, view: Disk, history: seq<Disk>, head: Bytes, sequence: nat, homes: seq<nat>)
    requires Sound(sb, book, view, {}, history) && book.phase.Building?
    requires history[|history| - 1] == view && |head| == HEAD && 0 < sequence
    requires 0 < |homes| < sb.journalBlocks && AllInRange(sb, homes) && Outside(sb, homes) && Distinct(homes)
    requires Describes(head, sequence, homes, Payload(sb, view, |homes|))
    ensures Sound(sb, book.(phase := Committing(book.phase.now, Pledge(sb, view, homes, Page(head)))),
                  view[sb.journalStart := Page(head)], {sb.journalStart}, history)
  {
    hide Ordered, Recovered, Contained, Committed, Describes, Before, Stands, Rests, Pledge, Page;
    var view' := view[sb.journalStart := Page(head)];
    var will := Pledge(sb, view, homes, Page(head));
    CommitReadsBack(sb, view, head, sequence, homes);
    HomesAre(Page(head), homes);
    PrepareCommits(sb, view, view', book.phase.now, homes);
    PledgeOwned(sb, view, homes, Page(head), book.phase.now, book.root, book.known);
    var phase' := Committing(book.phase.now, will);
    BeforeCommit(sb, book.phase.now, will, book.txn, view, view', view);
    OrderedLater(book.marks, MarkOf(sb, book.phase, book.txn, view, view), MarkOf(sb, phase', book.txn, view', view));
  }

  lemma HomesAre(head: Block, homes: seq<nat>)
    requires Count(head) == |homes| <= MAX_STAGED && forall i | 0 <= i < |homes| :: Target(head, i) == homes[i]
    ensures Homes(head) == homes
  {
  }

  lemma PledgeOwned(sb: Superblock, view: Disk, homes: seq<nat>, head: Block, s: Stand, root: Block, known: bool)
    requires Builds(sb, view, view, {}, s) && |homes| < sb.journalBlocks && AllInRange(sb, homes)
    requires Owned(s, root, known)
    ensures Owned(Pledge(sb, view, homes, head), root, known)
  {
    assert 0 !in homes;
  }

  lemma BeforeCommit(sb: Superblock, s: Stand, will: Stand, txn: nat, view: Disk, view': Disk, d: Disk)
    requires Sane(sb, |d|) && |view| == |view'| == |d|
    ensures Before(MarkOf(sb, Building(s), txn, view, d), MarkOf(sb, Committing(s, will), txn, view', d))
  {
  }

  lemma PrepareCommits(sb: Superblock, view: Disk, view': Disk, s: Stand, homes: seq<nat>)
    requires Builds(sb, view, view, {}, s)
    requires |view'| == |view| && forall b | 0 <= b < |view| && b != sb.journalStart :: view'[b] == view[b]
    requires Committed(sb, view').Some? && Homes(view'[sb.journalStart]) == homes
    requires |homes| < sb.journalBlocks && AllInRange(sb, homes) && Outside(sb, homes) && Distinct(homes)
    ensures Commits(sb, view', view, s, Pledge(sb, view, homes, view'[sb.journalStart]))
  {
    hide Recovered, Contained, Committed, Genuine, Traced;
    assert Payload(sb, view, |homes|) == Payload(sb, view', |homes|);
    forall b | 0 <= b < |view| && !InLog(sb, b) && b in homes
      ensures Next(sb, view, homes)[b] == Final(sb, view', homes, b)
    {
      assert sb.journalStart + Last(homes, b) != sb.journalStart;
    }
  }

  /** Once landed, a home may take anything: the log will overwrite it. */
  lemma CarrySound(sb: Superblock, book: Book, view: Disk, dirty: set<nat>, history: seq<Disk>, b: nat, bytes: Block)
    requires Sound(sb, book, view, dirty, history) && book.phase.Committing?
    requires Landed(sb, view, history[|history| - 1])
    requires b < |view| && !InLog(sb, b) && Count(view[sb.journalStart]) <= MAX_STAGED && b in Homes(view[sb.journalStart])
    ensures Sound(sb, book, view[b := bytes], dirty + {b}, history)
  {
    hide Ordered, Stands, Committed, Homes, Commits;
    var Committing(was, will) := book.phase;
    CarryCommits(sb, view, history[|history| - 1], was, will, b, bytes);
  }

  lemma CarryCommits(sb: Superblock, view: Disk, d: Disk, was: Stand, will: Stand, b: nat, bytes: Block)
    requires Commits(sb, view, d, was, will) && Sane(sb, |d|) && |view| == |d| && Landed(sb, view, d)
    requires b < |view| && !InLog(sb, b) && Count(view[sb.journalStart]) <= MAX_STAGED && b in Homes(view[sb.journalStart])
    ensures Commits(sb, view[b := bytes], d, was, will)
  {
    hide Rests, Committed, Homes;
    var view' := view[b := bytes];
    assert SameLog(sb, view, view');
    SameLogCommits(sb, view, view');
    var count := Count(view[sb.journalStart]);
    assert Payload(sb, view, count) == Payload(sb, view', count);
  }

  /** The two agree on every block outside the log. */
  ghost predicate SameOutside(sb: Superblock, view: Disk, will: Disk) {
    |will| == |view| && forall b | 0 <= b < |view| && !InLog(sb, b) :: view[b] == will[b]
  }

  /** With every home done and on the device, the log may be cleared. */
  lemma ClearSound(sb: Superblock, book: Book, view: Disk, history: seq<Disk>)
    requires Sound(sb, book, view, {}, history) && book.phase.Committing?
    requires history[|history| - 1] == view && SameOutside(sb, view, book.phase.will.state)
    ensures Sound(sb, book.(txn := book.txn + 1, phase := Building(book.phase.will)),
                  view[sb.journalStart := ZERO], {sb.journalStart}, history)
  {
    hide Ordered, Recovered, Contained, Committed, Before, Stands, Genuine, Sum, At, Homes;
    PromiseIsGenuine(sb, view, book.phase.will);
    ZeroAnnouncesNothing();
    assert Rests(sb, view, book.phase.will);
  }

  // ----- when nothing can be forged

  /** A disk that announces a transaction commits it, over the payload known. */
  predicate Upright(sb: Superblock, d: Disk, o: Origin)
    requires Sane(sb, |d|)
  {
    (Announces(d[sb.journalStart], sb.journalBlocks) ==> Committed(sb, d).Some?) && !Forged(sb, d, o)
  }

  /** Nothing announces a transaction over logged blocks that are about to change. */
  ghost predicate Calm(sb: Superblock, phase: Phase, view: Disk, d: Disk)
    requires Sane(sb, |d|) && |view| == |d|
  {
    match phase
    case Building(now) =>
      && !Announces(view[sb.journalStart], sb.journalBlocks) && Upright(sb, d, now.origin)
      && (!Announces(d[sb.journalStart], sb.journalBlocks)
          || forall b | 0 <= b < |d| && InLog(sb, b) && b != sb.journalStart :: view[b] == d[b])
    case Committing(_, _) => Landed(sb, view, d) || !Announces(d[sb.journalStart], sb.journalBlocks)
  }

  lemma CalmStep(sb: Superblock, phase: Phase, txn: nat, view: Disk, d: Disk, dirty: set<nat>, b: nat)
    requires Sane(sb, |d|) && |view| == |d| && Holds(sb, phase, view, d, dirty) && Calm(sb, phase, view, d) && b < |d|
    ensures Calm(sb, phase, view, d[b := view[b]])
    ensures Upright(sb, d[b := view[b]], MarkOf(sb, phase, txn, view, d[b := view[b]]).stand.origin)
  {
    hide Rests, Sum, At, Commits;
    var e := d[b := view[b]];
    match phase
    case Building(now) =>
      if Announces(e[sb.journalStart], sb.journalBlocks) {
        assert SameLog(sb, d, e);
        SameLogCommits(sb, d, e);
        var count := Count(e[sb.journalStart]);
        assert Payload(sb, e, count) == Payload(sb, d, count);
      }
    case Committing(was, will) =>
      CommitStep(sb, view, d, was, will, b);
      if Landed(sb, view, e) {
        LandedUpright(sb, view, e, was, will);
      }
  }

  lemma LandedUpright(sb: Superblock, view: Disk, d: Disk, was: Stand, will: Stand)
    requires Commits(sb, view, d, was, will) && Sane(sb, |d|) && |view| == |d| && Landed(sb, view, d)
    ensures Upright(sb, d, will.origin)
  {
    hide Rests, Sum, At;
    LandedStands(sb, view, d, was, will);
    assert SameLog(sb, view, d);
    SameLogCommits(sb, view, d);
  }

  /** Every promise kept, and, if `calm`, nothing forged so far or possible. */
  ghost predicate Secure(sb: Superblock, book: Book, view: Disk, dirty: set<nat>, history: seq<Disk>, calm: bool) {
    && Sound(sb, book, view, dirty, history)
    && (calm ==>
          && Calm(sb, book.phase, view, history[|history| - 1])
          && forall i | 0 <= i < |book.marks| :: Upright(sb, history[book.base + i], book.marks[i].stand.origin))
  }

  lemma StepSecure(sb: Superblock, book: Book, view: Disk, dirty: set<nat>, history: seq<Disk>, e: Disk, calm: bool)
    requires Secure(sb, book, view, dirty, history, calm) && SpillStep(history[|history| - 1], e, view, dirty)
    ensures |e| == |view| && Secure(sb, Noted(sb, book, view, e), view, dirty, history + [e], calm)
  {
    hide Stands, Holds, Ordered, Calm, MarkOf, Upright, Owned, PhaseOwned;
    StepSound(sb, book, view, dirty, history, e);
    if calm {
      var d := history[|history| - 1];
      var b :| b in dirty && b < |view| == |d| && e == d[b := view[b]];
      CalmStep(sb, book.phase, book.txn, view, d, dirty, b);
    }
  }

  /** The whole of what any cache operation may do to the device keeps every promise. */
  lemma {:induction false} SpillsSecure(sb: Superblock, book: Book, view: Disk, dirty: set<nat>, history: seq<Disk>, history': seq<Disk>, calm: bool)
    requires Secure(sb, book, view, dirty, history, calm) && Spills(history, history', view, dirty)
    ensures Sized(sb, history', view)
    ensures Secure(sb, Carried(sb, book, view, history'[|history|..]), view, dirty, history', calm)
    decreases |history'|
  {
    hide Secure, SpillStep;
    if |history'| == |history| {
      assert history' == history;
      assert history'[|history|..] == [];
      SecureSizes(sb, book, view, dirty, history, calm);
    } else {
      var front, e := history'[..|history'| - 1], history'[|history'| - 1];
      assert front[..|history|] == history;
      assert Spills(history, front, view, dirty) by {
        forall k | |history| <= k < |front|
          ensures SpillStep(front[k - 1], front[k], view, dirty)
        {
          assert SpillStep(history'[k - 1], history'[k], view, dirty);
        }
      }
      SpillsSecure(sb, book, view, dirty, history, front, calm);
      assert SpillStep(history'[|history'| - 2], history'[|history'| - 1], view, dirty);
      StepSecure(sb, Carried(sb, book, view, front[|history|..]), view, dirty, front, e, calm);
      assert front + [e] == history';
      var more := history'[|history|..];
      assert more[..|more| - 1] == front[|history|..] && more[|more| - 1] == e;
    }
  }

  lemma SecureSizes(sb: Superblock, book: Book, view: Disk, dirty: set<nat>, history: seq<Disk>, calm: bool)
    requires Secure(sb, book, view, dirty, history, calm)
    ensures Sized(sb, history, view)
  {
  }

  // ----- the same, after each thing the cache does

  /** The marks a phase can give. */
  ghost function Possible(phase: Phase, txn: nat): set<Mark> {
    match phase
    case Building(now) => {Mark(txn, now)}
    case Committing(was, will) => {Mark(txn, was), Mark(txn + 1, will)}
  }

  /** What a book never changes. */
  ghost predicate Kept(book: Book, book': Book) {
    book'.base == book.base && book'.root == book.root && book'.known == book.known
  }

  /** Nothing but marks may differ. */
  ghost predicate Alike(book: Book, book': Book) {
    Kept(book, book') && book'.phase == book.phase && book'.txn == book.txn
  }

  /** `book'` is `book` with marks of its phase added. */
  ghost predicate Added(book: Book, book': Book) {
    && Kept(book, book')
    && |book.marks| <= |book'.marks| && book'.marks[..|book.marks|] == book.marks
    && forall i | |book.marks| <= i < |book'.marks| :: book'.marks[i] in Possible(book.phase, book.txn)
  }

  lemma {:induction false} CarriedAdds(sb: Superblock, book: Book, view: Disk, more: seq<Disk>)
    requires Sane(sb, |view|) && forall k | 0 <= k < |more| :: |more[k]| == |view|
    ensures Added(book, Carried(sb, book, view, more))
    ensures Alike(book, Carried(sb, book, view, more))
  {
    if more != [] {
      CarriedAdds(sb, book, view, more[..|more| - 1]);
    }
  }

  ghost function After(sb: Superblock, book: Book, st: State, h: seq<Disk>, h': seq<Disk>): Book
    requires |st.slots| == |st.frames| && Sane(sb, |View(st)|) && |h| <= |h'|
    requires forall k | |h| <= k < |h'| :: |h'[k]| == |View(st)|
  {
    Carried(sb, book, View(st), h'[|h|..])
  }

  /** Whatever the cache wrote back while it worked, every state of the device was noted and is safe. */
  lemma SpillsNoted(sb: Superblock, book: Book, st: State, h: seq<Disk>, h': seq<Disk>, calm: bool)
    requires |st.slots| == |st.frames| && Secure(sb, book, View(st), Dirty(st.slots), h, calm)
    requires Spills(h, h', View(st), Dirty(st.slots))
    ensures Sized(sb, h', View(st))
    ensures var book' := After(sb, book, st, h, h');
            && Secure(sb, book', View(st), Dirty(st.slots), h', calm)
            && Added(book, book') && Alike(book, book')
  {
    hide Secure, SpillStep, Added;
    SpillsSecure(sb, book, View(st), Dirty(st.slots), h, h', calm);
    CarriedAdds(sb, book, View(st), h'[|h|..]);
  }

  /** After an operation that only looked. */
  lemma LookNoted(sb: Superblock, book: Book, st: State, h: seq<Disk>, st': State, h': seq<Disk>, calm: bool)
    requires Looks(st, h, st', h') && Secure(sb, book, View(st), Dirty(st.slots), h, calm)
    ensures Sized(sb, h', View(st))
    ensures var book' := After(sb, book, st, h, h');
            && Secure(sb, book', View(st'), Dirty(st'.slots), h', calm)
            && Added(book, book') && Alike(book, book')
  {
    hide Secure, SpillStep, PinsKept, Added;
    SpillsNoted(sb, book, st, h, h', calm);
    FewerSecure(sb, After(sb, book, st, h, h'), View(st), Dirty(st.slots), Dirty(st'.slots), h', calm);
  }

  lemma FewerSecure(sb: Superblock, book: Book, view: Disk, dirty: set<nat>, less: set<nat>, history: seq<Disk>, calm: bool)
    requires Secure(sb, book, view, dirty, history, calm) && less <= dirty
    ensures Secure(sb, book, view, less, history, calm)
  {
    FewerSound(sb, book, view, dirty, less, history);
  }

  /** While building, if `calm`, the commit block on the device announces nothing. */
  ghost predicate Quiet(sb: Superblock, phase: Phase, d: Disk, calm: bool) {
    calm && phase.Building? ==> sb.journalStart < |d| && !Announces(d[sb.journalStart], sb.journalBlocks)
  }

  lemma QuietKept(sb: Superblock, book: Book, view: Disk, dirty: set<nat>, h: seq<Disk>, h': seq<Disk>, calm: bool)
    requires Secure(sb, book, view, dirty, h, calm) && Spills(h, h', view, dirty)
    requires Quiet(sb, book.phase, h[|h| - 1], calm)
    ensures Quiet(sb, book.phase, h'[|h'| - 1], calm)
  {
    hide SpillStep, Stands, Ordered, Holds, At;
    SpillsLeave(h, h', view, dirty, |h'| - 1, sb.journalStart);
  }

  /** After an operation that wrote a logged block in the cache while building. */
  lemma StageNoted(sb: Superblock, book: Book, st: State, h: seq<Disk>, st': State, h': seq<Disk>, b: nat, bytes: Block, calm: bool)
    requires Sets(st, h, st', h', b, bytes) && Secure(sb, book, View(st), Dirty(st.slots), h, calm)
    requires book.phase.Building? && InLog(sb, b) && b != sb.journalStart
    requires Quiet(sb, book.phase, h[|h| - 1], calm)
    ensures Sized(sb, h', View(st))
    ensures var book' := After(sb, book, st, h, h');
            && Secure(sb, book', View(st'), Dirty(st'.slots), h', calm)
            && Added(book, book') && Alike(book, book')
    ensures Quiet(sb, book.phase, h'[|h'| - 1], calm)
  {
    hide SpillStep, PinsKept, Added, Stands, Ordered, Holds, At, Upright;
    SpillsNoted(sb, book, st, h, h', calm);
    SpillsLeave(h, h', View(st), Dirty(st.slots), |h'| - 1, sb.journalStart);
    var book' := After(sb, book, st, h, h');
    StageSound(sb, book', View(st), Dirty(st.slots), h', b, bytes);
    FewerSound(sb, book', View(st'), Dirty(st.slots) + {b}, Dirty(st'.slots), h');
  }

  /** After an operation that wrote file data in the cache while building. */
  lemma LooseNoted(sb: Superblock, book: Book, st: State, h: seq<Disk>, st': State, h': seq<Disk>, b: nat, bytes: Block, calm: bool)
    requires Sets(st, h, st', h', b, bytes) && Secure(sb, book, View(st), Dirty(st.slots), h, calm)
    requires book.phase.Building? && !InLog(sb, b) && 0 < b
    ensures Sized(sb, h', View(st))
    ensures var book' := After(sb, book, st, h, h');
            && Added(book, book') && Alike(book, book')
            && Secure(sb, book'.(phase := Building(Loosened(book.phase.now, b))), View(st'), Dirty(st'.slots), h', calm)
  {
    hide SpillStep, PinsKept, Added, Stands, Ordered, Holds, At, Upright;
    SpillsNoted(sb, book, st, h, h', calm);
    var book' := After(sb, book, st, h, h');
    LooseSound(sb, book', View(st), Dirty(st.slots), h', b, bytes);
    FewerSound(sb, book'.(phase := Building(Loosened(book.phase.now, b))), View(st'), Dirty(st.slots) + {b}, Dirty(st'.slots), h');
  }

  /** After an operation that opened a block to be changed and left it as it was, while committing. */
  lemma OpenNoted(sb: Superblock, book: Book, st: State, h: seq<Disk>, st': State, h': seq<Disk>, b: nat, calm: bool)
    requires |st.slots| == |st.frames| && b < |View(st)| && Sets(st, h, st', h', b, View(st)[b])
    requires Secure(sb, book, View(st), Dirty(st.slots), h, calm) && book.phase.Committing?
    ensures Sized(sb, h', View(st)) && View(st') == View(st)
    ensures var book' := After(sb, book, st, h, h');
            && Secure(sb, book', View(st'), Dirty(st'.slots), h', calm)
            && Added(book, book') && Alike(book, book')
  {
    hide SpillStep, PinsKept, Added, Stands, Ordered, Commits, At, Upright, Calm;
    SpillsNoted(sb, book, st, h, h', calm);
    assert View(st)[b := View(st)[b]] == View(st);
  }

  /** The stand after a write of block `b`: the journal covers what is in the log, and nothing else. */
  ghost function Eased(sb: Superblock, s: Stand, b: nat): Stand {
    if InLog(sb, b) then s else Loosened(s, b)
  }

  /** After an operation that wrote any block but the superblock and the commit block, while building. */
  lemma WriteNoted(sb: Superblock, book: Book, st: State, h: seq<Disk>, st': State, h': seq<Disk>, b: nat, bytes: Block, calm: bool)
    requires Sets(st, h, st', h', b, bytes) && Secure(sb, book, View(st), Dirty(st.slots), h, calm)
    requires book.phase.Building? && b != sb.journalStart && 0 < b && Quiet(sb, book.phase, h[|h| - 1], calm)
    ensures Sized(sb, h', View(st))
    ensures var book' := After(sb, book, st, h, h');
            && Added(book, book') && Alike(book, book')
            && Secure(sb, book'.(phase := Building(Eased(sb, book.phase.now, b))), View(st'), Dirty(st'.slots), h', calm)
    ensures Quiet(sb, book.phase, h'[|h'| - 1], calm)
  {
    hide Secure, SpillStep, PinsKept, Added, Quiet, Spills, Dirty, CacheModel.View;
    if InLog(sb, b) {
      StageNoted(sb, book, st, h, st', h', b, bytes, calm);
      assert book.phase == Building(Eased(sb, book.phase.now, b));
    } else {
      LooseNoted(sb, book, st, h, st', h', b, bytes, calm);
      QuietKept(sb, book, View(st), Dirty(st.slots), h, h', calm);
    }
  }

  /** With nothing waiting the device is what is shown, and an operation that writes in the cache leaves it so. */
  lemma NothingWaits(st: State, h: seq<Disk>, h': seq<Disk>)
    requires Coherent(st) && Dirty(st.slots) == {}
    ensures View(st) == st.disk
    ensures Spills(h, h', View(st), Dirty(st.slots)) ==> h' == h
  {
    forall b | 0 <= b < |st.disk|
      ensures View(st)[b] == st.disk[b]
    {
      CleanAgrees(st, b);
    }
    if |h'| > |h| > 0 {
      assert !SpillStep(h'[|h'| - 2], h'[|h'| - 1], View(st), Dirty(st.slots));
    }
  }

  /** After the commit block was written in the cache, everything else being on the device. */
  lemma PrepareNoted(sb: Superblock, book: Book, st: State, h: seq<Disk>, st': State, h': seq<Disk>,
                     head: Bytes, sequence: nat, homes: seq<nat>, calm: bool)
    requires |head| == HEAD && Sets(st, h, st', h', sb.journalStart, Page(head)) && Secure(sb, book, View(st), {}, h, calm)
    requires Dirty(st.slots) == {} && h != [] && h[|h| - 1] == st.disk && book.phase.Building? && 0 < sequence
    requires Sane(sb, |View(st)|)
    requires 0 < |homes| < sb.journalBlocks && AllInRange(sb, homes) && Outside(sb, homes) && Distinct(homes)
    requires Describes(head, sequence, homes, Payload(sb, View(st), |homes|))
    ensures h' == h
    ensures Secure(sb, book.(phase := Committing(book.phase.now, Pledge(sb, View(st), homes, Page(head)))),
                   View(st'), Dirty(st'.slots), h', calm)
  {
    hide PinsKept, Sound, At, Describes, Pledge, Upright;
    NothingWaits(st, h, h');
    PrepareSound(sb, book, View(st), h, head, sequence, homes);
    FewerSound(sb, book.(phase := Committing(book.phase.now, Pledge(sb, View(st), homes, Page(head)))),
               View(st'), {sb.journalStart}, Dirty(st'.slots), h');
  }

  /** After a home was written in the cache, the commit having landed. */
  lemma CarryNoted(sb: Superblock, book: Book, st: State, h: seq<Disk>, st': State, h': seq<Disk>, b: nat, bytes: Block, calm: bool)
    requires Sets(st, h, st', h', b, bytes) && Secure(sb, book, View(st), Dirty(st.slots), h, calm)
    requires book.phase.Committing? && Sized(sb, h, View(st))
    requires Landed(sb, View(st), h[|h| - 1])
    requires !InLog(sb, b) && Count(View(st)[sb.journalStart]) <= MAX_STAGED && b in Homes(View(st)[sb.journalStart])
    ensures Sized(sb, h', View(st)) && Landed(sb, View(st'), h'[|h'| - 1])
    ensures var book' := After(sb, book, st, h, h');
            && Secure(sb, book', View(st'), Dirty(st'.slots), h', calm)
            && Added(book, book') && Alike(book, book')
  {
    hide PinsKept, Added, Stands, Ordered, Holds, At, Homes, Upright;
    SpillsNoted(sb, book, st, h, h', calm);
    var book' := After(sb, book, st, h, h');
    SpillsLeave(h, h', View(st), Dirty(st.slots), |h'| - 1, sb.journalStart);
    CarrySound(sb, book', View(st), Dirty(st.slots), h', b, bytes);
    FewerSound(sb, book', View(st'), Dirty(st.slots) + {b}, Dirty(st'.slots), h');
  }

  lemma ClearCalm(sb: Superblock, book: Book, view: Disk, h: seq<Disk>)
    requires Sound(sb, book, view, {}, h) && book.phase.Committing? && h[|h| - 1] == view
    ensures Calm(sb, Building(book.phase.will), view[sb.journalStart := ZERO], view)
  {
    hide Stands, Ordered, Commits, At;
    ZeroAnnouncesNothing();
    LandedUpright(sb, view, view, book.phase.was, book.phase.will);
  }

  /** After the commit block was cleared in the cache, every home being done and on the device. */
  lemma ClearNoted(sb: Superblock, book: Book, st: State, h: seq<Disk>, st': State, h': seq<Disk>, calm: bool)
    requires Sets(st, h, st', h', sb.journalStart, ZERO) && Secure(sb, book, View(st), {}, h, calm)
    requires Dirty(st.slots) == {} && h != [] && h[|h| - 1] == st.disk && book.phase.Committing?
    requires SameOutside(sb, View(st), book.phase.will.state)
    ensures h' == h
    ensures Secure(sb, book.(txn := book.txn + 1, phase := Building(book.phase.will)), View(st'), Dirty(st'.slots), h', calm)
  {
    hide PinsKept, Sound, At, SameOutside, Calm, Upright;
    NothingWaits(st, h, h');
    ClearSound(sb, book, View(st), h);
    ClearCalm(sb, book, View(st), h);
    FewerSound(sb, book.(txn := book.txn + 1, phase := Building(book.phase.will)), View(st'), {sb.journalStart}, Dirty(st'.slots), h');
  }

  /** The book of a volume just mounted. */
  ghost function Opened(history: seq<Disk>, s: Stand): Book
    requires 0 < |history| && s.state != []
  {
    Book(|history| - 1, s.state[0], s.origin.Known?, 0, Building(s), [Mark(0, s)])
  }

  /** The newest state of the device is marked with the durable state. */
  ghost predicate Newest(book: Book) {
    book.phase.Building? && book.marks != [] && book.marks[|book.marks| - 1] == Mark(book.txn, book.phase.now)
  }

  /** A device that was written to while nothing was being committed ends so marked. */
  lemma GrownIsNewest(sb: Superblock, book: Book, view: Disk, dirty: set<nat>, h: seq<Disk>, calm: bool,
                      book': Book, view': Disk, dirty': set<nat>, h': seq<Disk>, calm': bool)
    requires Secure(sb, book, view, dirty, h, calm) && Secure(sb, book', view', dirty', h', calm')
    requires Added(book, book') && Alike(book, book') && book.phase.Building? && |h| < |h'|
    ensures Newest(book')
  {
    hide Stands, Ordered, Holds, Upright, Owned, PhaseOwned, Calm;
  }

  /** A volume may open over whatever waits, as long as the device is at rest under what is shown. */
  lemma OpenedSecure(sb: Superblock, history: seq<Disk>, view: Disk, dirty: set<nat>, s: Stand)
    requires Sized(sb, history, view) && Builds(sb, view, history[|history| - 1], dirty, s) && s.state != []
    ensures Secure(sb, Opened(history, s), view, dirty, history, Silent(sb, view, history[|history| - 1]))
  {
    hide Stands, Rests, At, Committed, Announces;
    BuildsRests(sb, view, history[|history| - 1], dirty, s);
    BuildsRoot(sb, view, history[|history| - 1], dirty, s);
    NothingAnnounced(sb, history[|history| - 1], s.origin);
  }

  lemma NothingAnnounced(sb: Superblock, d: Disk, o: Origin)
    requires Sane(sb, |d|)
    ensures !Announces(d[sb.journalStart], sb.journalBlocks) ==> Upright(sb, d, o) && Committed(sb, d).None?
  {
    hide At, Sum;
  }

  /** Neither the device nor what is shown announces a transaction. */
  predicate Silent(sb: Superblock, view: Disk, d: Disk)
    requires Sane(sb, |d|) && |view| == |d|
  {
    !Announces(view[sb.journalStart], sb.journalBlocks) && !Announces(d[sb.journalStart], sb.journalBlocks)
  }

  /** While committing, the view commits. */
  lemma ShownCommits(sb: Superblock, book: Book, view: Disk, dirty: set<nat>, history: seq<Disk>, calm: bool)
    requires Secure(sb, book, view, dirty, history, calm) && book.phase.Committing?
    ensures Sane(sb, |view|) && Committed(sb, view).Some?
  {
    hide Stands, Ordered, Rests, At;
  }

  /** The superblock is never loose. */
  lemma BuildsRoot(sb: Superblock, view: Disk, d: Disk, dirty: set<nat>, s: Stand)
    requires Builds(sb, view, d, dirty, s)
    ensures Sane(sb, |d|) && |view| == |d| == |s.state| && view[0] == d[0] == s.state[0]
  {
    hide Genuine, Traced;
  }

  lemma AddedTurns(book: Book, book': Book, txn: nat, phase: Phase)
    requires Added(book, book')
    ensures Added(book, book'.(txn := txn, phase := phase))
  {
  }
}
