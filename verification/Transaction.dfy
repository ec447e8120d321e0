/** Whole operations: file data changed in place, metadata staged, changed and committed. */
module Transactions {
  import opened Words
  import opened Blocks
  import opened Superblocks
  import opened CacheModel
  import opened PageCache
  import opened Journal
  import opened Recovery
  import opened Ledger
  import opened Volumes

  /** One change of one block, or of one staged copy. */
  type Edit = (nat, Block -> Block)

  /** One operation: data to change in place, blocks to stage, changes to staged copies, and the order to carry them home. */
  datatype Transaction = Transaction(data: seq<Edit>, homes: seq<nat>, edits: seq<Edit>, order: seq<nat>)

  // ----- what it comes to on a plain disk

  /** Changes to blocks from `first` on, in turn. */
  function Overlaid(d: Disk, first: nat, edits: seq<Edit>): (r: Disk)
    ensures |r| == |d|
  {
    if edits == [] then d
    else
      var (b, change) := edits[|edits| - 1];
      var r := Overlaid(d, first, edits[..|edits| - 1]);
      if first <= b < |r| then r[b := change(r[b])] else r
  }

  /** The blocks that may be staged, each once, in the order they are first named. */
  function Chosen(sb: Superblock, homes: seq<nat>): (r: seq<nat>)
    ensures AllInRange(sb, r) && Outside(sb, r) && forall i, j | 0 <= i < j < |r| :: r[i] != r[j]
  {
    if homes == [] then []
    else
      var r, home := Chosen(sb, homes[..|homes| - 1]), homes[|homes| - 1];
      if InRange(sb, home) && !InLog(sb, home) && home !in r then r + [home] else r
  }

  ghost function Copies(d: Disk, homes: seq<nat>): (r: seq<Block>)
    requires forall i | 0 <= i < |homes| :: homes[i] < |d|
    ensures |r| == |homes|
  {
    seq(|homes|, i requires 0 <= i < |homes| => d[homes[i]])
  }

  /** Changes to staged copies, in turn. */
  function Edited(copies: seq<Block>, edits: seq<Edit>): (r: seq<Block>)
    ensures |r| == |copies|
  {
    if edits == [] then copies
    else
      var (slot, change) := edits[|edits| - 1];
      var r := Edited(copies, edits[..|edits| - 1]);
      if slot < |r| then r[slot := change(r[slot])] else r
  }

  /** The data changed in place, and every staged block replaced by its changed copy. */
  ghost function Applied(sb: Superblock, d: Disk, t: Transaction): (r: Disk)
    requires Sane(sb, |d|)
    ensures |r| == |d|
  {
    var over, homes := Overlaid(d, sb.dataStart, t.data), Chosen(sb, t.homes);
    Landing(over, homes, Edited(Copies(over, homes), t.edits))
  }

  ghost function Landing(d: Disk, homes: seq<nat>, copies: seq<Block>): (r: Disk)
    requires |copies| == |homes|
    ensures |r| == |d|
  {
    seq(|d|, b requires 0 <= b < |d| => if b in homes then copies[Last(homes, b) - 1] else d[b])
  }

  /** The operation stages no more blocks than a transaction holds, and changes only data that is there. */
  predicate Fitting(sb: Superblock, n: nat, t: Transaction) {
    |Chosen(sb, t.homes)| <= MAX_STAGED && InDevice(sb, n, t.data)
  }

  predicate InDevice(sb: Superblock, n: nat, data: seq<Edit>) {
    forall k | 0 <= k < |data| && sb.dataStart <= data[k].0 :: data[k].0 < n
  }

  /** The data blocks an operation changes in place. */
  ghost function InPlace(sb: Superblock, data: seq<Edit>): set<nat> {
    set k | 0 <= k < |data| && sb.dataStart <= data[k].0 :: data[k].0
  }

  // ----- what it does to the book

  /** The same state, with some of `touched` loose as well. */
  ghost predicate Loosely(s: Stand, s': Stand, touched: set<nat>) {
    s'.state == s.state && s'.origin == s.origin && s.loose <= s'.loose <= s.loose + touched
  }

  /** Nothing committed yet: the durable state stands, but for the blocks touched. */
  ghost predicate During(book: Book, book': Book, touched: set<nat>) {
    && book.phase.Building? && book'.phase.Building? && Kept(book, book') && book'.txn == book.txn
    && Loosely(book.phase.now, book'.phase.now, touched)
    && |book.marks| <= |book'.marks| && book'.marks[..|book.marks|] == book.marks
    && forall i | |book.marks| <= i < |book'.marks| ::
         book'.marks[i].txn == book.txn && Loosely(book.phase.now, book'.marks[i].stand, touched)
  }

  /** The state after the transaction, all of it durable. */
  ghost predicate Whole(s: Stand, next: Disk) {
    s.state == next && s.loose == {}
  }

  /**
   What an operation may have come to. Each state of the device on the way is marked
   with the durable state it began from, but for the blocks touched, or with `next`.
   */
  ghost predicate Did(book: Book, book': Book, touched: set<nat>, next: Disk) {
    && Kept(book, book') && |book.marks| <= |book'.marks| && book'.marks[..|book.marks|] == book.marks
    && match book.phase
       case Committing(_, _) => Added(book, book') && Alike(book, book')
       case Building(now) =>
         && (forall i | |book.marks| <= i < |book'.marks| ::
               || (book'.marks[i].txn == book.txn && Loosely(now, book'.marks[i].stand, touched))
               || (book'.marks[i].txn == book.txn + 1 && Whole(book'.marks[i].stand, next)))
         && match book'.phase
            case Building(now') =>
              (book'.txn == book.txn && Loosely(now, now', touched)) || (book'.txn == book.txn + 1 && Whole(now', next))
            case Committing(was, will) => book'.txn == book.txn && Loosely(now, was, touched) && Whole(will, next)
  }

  lemma DuringStep(book: Book, mid: Book, book': Book, touched: set<nat>)
    requires During(book, mid, touched) && Added(mid, book') && book'.txn == mid.txn && book'.phase.Building?
    requires Loosely(mid.phase.now, book'.phase.now, touched)
    ensures During(book, book', touched)
  {
    forall i | |book.marks| <= i < |book'.marks|
      ensures book'.marks[i].txn == book.txn && Loosely(book.phase.now, book'.marks[i].stand, touched)
    {
      if i < |mid.marks| {
        assert book'.marks[i] == book'.marks[..|mid.marks|][i];
      }
    }
    assert book'.marks[..|book.marks|] == mid.marks[..|book.marks|];
  }

  lemma DuringSame(book: Book, touched: set<nat>)
    requires book.phase.Building?
    ensures During(book, book, touched)
  {
  }

  lemma DuringJoin(book: Book, mid: Book, book': Book, touched: set<nat>, more: set<nat>)
    requires During(book, mid, touched) && During(mid, book', more) && more <= touched
    ensures During(book, book', touched)
  {
    forall i | |book.marks| <= i < |book'.marks|
      ensures book'.marks[i].txn == book.txn && Loosely(book.phase.now, book'.marks[i].stand, touched)
    {
      if i < |mid.marks| {
        assert book'.marks[i] == book'.marks[..|mid.marks|][i];
      }
    }
    assert book'.marks[..|book.marks|] == mid.marks[..|book.marks|];
  }

  lemma DuringDid(book: Book, book': Book, touched: set<nat>, next: Disk)
    requires During(book, book', touched)
    ensures Did(book, book', touched, next)
  {
  }

  lemma CommittedDid(book: Book, mid: Book, book': Book, touched: set<nat>, next: Disk)
    requires During(book, mid, touched) && Outcome(mid, book', next)
    ensures Did(book, book', touched, next)
  {
    forall i | |book.marks| <= i < |book'.marks|
      ensures || (book'.marks[i].txn == book.txn && Loosely(book.phase.now, book'.marks[i].stand, touched))
              || (book'.marks[i].txn == book.txn + 1 && Whole(book'.marks[i].stand, next))
    {
      if i < |mid.marks| {
        assert book'.marks[i] == book'.marks[..|mid.marks|][i];
      }
    }
    assert book'.marks[..|book.marks|] == mid.marks[..|book.marks|];
  }

  // ----- running it

  /** Changes data in place, one block after another. */
  method ChangeData(v: Volume, data: seq<Edit>) returns (r: Result<(), FsError>)
    requires v.Valid() && v.open
    modifies v.Repr()
    ensures v.Valid() && v.open && v.staged == old(v.staged) && v.sequence == old(v.sequence) && v.cache.store.Ages()
    ensures During(old(v.book), v.book, InPlace(v.sb, data))
    ensures r.Ok? ==> v.cache.View() == Overlaid(old(v.cache.View()), v.sb.dataStart, data) && InDevice(v.sb, |old(v.cache.View())|, data)
    ensures Free(old(v.cache.slots)) ==> Free(v.cache.slots)
    ensures r.Err? && Free(old(v.cache.slots)) ==> v.cache.store.Failed() || !InDevice(v.sb, |old(v.cache.View())|, data)
  {
    hide Secure, Coherent, Timed, ReadHead, CacheModel.View, Dirty, Free, Quiet, Stageable, During, InPlace, Added, Overlaid, InDevice;
    DuringSame(v.book, InPlace(v.sb, data));
    ghost var view := v.cache.View();
    OverlaidNone(v.sb, view, data);
    for k := 0 to |data|
      invariant v.Valid() && v.open && v.staged == old(v.staged) && v.sequence == old(v.sequence) && v.cache.store.Ages()
      invariant During(old(v.book), v.book, InPlace(v.sb, data))
      invariant v.cache.View() == Overlaid(view, v.sb.dataStart, data[..k]) && InDevice(v.sb, |view|, data[..k])
      invariant Free(old(v.cache.slots)) ==> Free(v.cache.slots)
    {
      OverlaidNext(v.sb, view, data, k);
      InDeviceNext(v.sb, |view|, data, k);
      if v.sb.dataStart <= data[k].0 {
        ghost var book := v.book;
        InPlaceHas(v.sb, data, k);
        r := v.EditData(data[k].0, data[k].1);
        DuringStep(old(v.book), book, v.book, InPlace(v.sb, data));
        if r.Err? {
          return;
        }
      }
    }
    assert data[..|data|] == data;
    return Ok(());
  }

  lemma OverlaidNone(sb: Superblock, d: Disk, data: seq<Edit>)
    ensures Overlaid(d, sb.dataStart, data[..0]) == d && InDevice(sb, |d|, data[..0])
  {
  }

  lemma OverlaidNext(sb: Superblock, d: Disk, data: seq<Edit>, k: nat)
    requires k < |data|
    ensures var r, (b, change) := Overlaid(d, sb.dataStart, data[..k]), data[k];
      Overlaid(d, sb.dataStart, data[..k + 1]) == if sb.dataStart <= b < |r| then r[b := change(r[b])] else r
  {
    assert data[..k + 1][..k] == data[..k] && data[..k + 1][k] == data[k];
  }

  lemma InDeviceNext(sb: Superblock, n: nat, data: seq<Edit>, k: nat)
    requires k < |data| && InDevice(sb, n, data[..k])
    ensures InDevice(sb, n, data[..k + 1]) <==> data[k].0 < sb.dataStart || data[k].0 < n
    ensures InDevice(sb, n, data) ==> data[k].0 < sb.dataStart || data[k].0 < n
  {
    var more := data[..k + 1];
    assert more[k] == data[k];
    assert forall i | 0 <= i < k :: more[i] == data[..k][i];
  }

  lemma InPlaceHas(sb: Superblock, data: seq<Edit>, k: nat)
    requires k < |data| && sb.dataStart <= data[k].0
    ensures data[k].0 in InPlace(sb, data)
  {
  }

  /** The log holds the copies, and everything outside it is as it was. */
  ghost predicate Laid(sb: Superblock, base: Disk, view: Disk, copies: seq<Block>) {
    && Sane(sb, |view|) && SameOutside(sb, base, view) && |copies| < sb.journalBlocks
    && forall i | 0 <= i < |copies| :: view[sb.journalStart + 1 + i] == copies[i]
  }

  lemma LaidMore(sb: Superblock, base: Disk, view: Disk, homes: seq<nat>, home: nat)
    requires forall i | 0 <= i < |homes| :: homes[i] < |base|
    requires Laid(sb, base, view, Copies(base, homes)) && |homes| + 1 < sb.journalBlocks && home < |base| && !InLog(sb, home)
    ensures Laid(sb, base, view[sb.journalStart + 1 + |homes| := view[home]], Copies(base, homes + [home]))
  {
    assert Copies(base, homes + [home]) == Copies(base, homes) + [base[home]];
  }

  lemma LaidChanged(sb: Superblock, base: Disk, view: Disk, copies: seq<Block>, slot: nat, bytes: Block)
    requires Laid(sb, base, view, copies) && slot < |copies|
    ensures Laid(sb, base, view[sb.journalStart + 1 + slot := bytes], copies[slot := bytes])
  {
  }

  /** Stages one home. */
  method StageOne(v: Volume, home: nat, ghost base: Disk) returns (r: Result<(), FsError>)
    requires v.Valid() && v.open && MAX_STAGED < v.sb.journalBlocks && InRange(v.sb, home) && !InLog(v.sb, home)
    requires |v.cache.View()| == |base| && forall i | 0 <= i < |v.staged| :: v.staged[i] < |base|
    requires Laid(v.sb, base, v.cache.View(), Copies(base, v.staged))
    modifies v.Repr()
    ensures v.Valid() && v.open && v.sequence == old(v.sequence) && v.cache.store.Ages() && During(old(v.book), v.book, {})
    ensures Free(old(v.cache.slots)) ==> Free(v.cache.slots)
    ensures r.Err? && Free(old(v.cache.slots)) ==> v.cache.store.Failed() || (home !in old(v.staged) && |old(v.staged)| == MAX_STAGED)
    ensures r.Ok? ==>
              && v.staged == (if home in old(v.staged) then old(v.staged) else old(v.staged) + [home]) && |v.staged| <= MAX_STAGED
              && |v.cache.View()| == |base| && (forall i | 0 <= i < |v.staged| :: v.staged[i] < |base|)
              && Laid(v.sb, base, v.cache.View(), Copies(base, v.staged))
  {
    hide Secure, Coherent, Timed, ReadHead, CacheModel.View, Dirty, Free, Quiet, During, Added, Laid, Copies, Stageable;
    ghost var staged, shown, book := v.staged, v.cache.View(), v.book;
    DuringSame(book, {});
    StageableSize(v.sb, staged);
    var slot := v.Stage(home);
    DuringStep(book, book, v.book, {});
    if slot.Err? {
      return Err(slot.error);
    }
    if home !in staged {
      LaidMore(v.sb, base, shown, staged, home);
    }
    StageableSize(v.sb, v.staged);
    return Ok(());
  }


  /** Stages the blocks that may be, one after another. */
  method StageAll(v: Volume, homes: seq<nat>) returns (r: Result<(), FsError>)
    requires v.Valid() && v.open && v.staged == [] && MAX_STAGED < v.sb.journalBlocks
    modifies v.Repr()
    ensures v.Valid() && v.open && v.sequence == old(v.sequence) && v.cache.store.Ages() && During(old(v.book), v.book, {})
    ensures Free(old(v.cache.slots)) ==> Free(v.cache.slots)
    ensures r.Err? && Free(old(v.cache.slots)) ==> v.cache.store.Failed() || MAX_STAGED < |Chosen(v.sb, homes)|
    ensures r.Ok? ==> |v.staged| <= MAX_STAGED && v.staged == Chosen(v.sb, homes) && (forall i | 0 <= i < |v.staged| :: v.staged[i] < |old(v.cache.View())|)
                      && Laid(v.sb, old(v.cache.View()), v.cache.View(), Copies(old(v.cache.View()), v.staged))
  {
    hide Secure, Coherent, Timed, ReadHead, CacheModel.View, Dirty, Free, Quiet, During, Added, Laid, Copies, Stageable, Chosen;
    DuringSame(v.book, {});
    ghost var view := v.cache.View();
    LaidNone(v.sb, view);
    for k := 0 to |homes|
      invariant v.Valid() && v.open && v.sequence == old(v.sequence) && v.cache.store.Ages() && During(old(v.book), v.book, {})
      invariant v.staged == Chosen(v.sb, homes[..k]) && (forall i | 0 <= i < |v.staged| :: v.staged[i] < |view|)
      invariant Laid(v.sb, view, v.cache.View(), Copies(view, v.staged)) && |v.cache.View()| == |view|
      invariant |v.staged| <= MAX_STAGED && (Free(old(v.cache.slots)) ==> Free(v.cache.slots))
    {
      ghost var book := v.book;
      ChosenNext(v.sb, homes, k);
      if InRange(v.sb, homes[k]) && !InLog(v.sb, homes[k]) {
        r := StageOne(v, homes[k], view);
        DuringJoin(old(v.book), book, v.book, {}, {});
        if r.Err? {
          ChosenGrows(v.sb, homes, k + 1);
          return;
        }
      }
    }
    assert homes[..|homes|] == homes;
    return Ok(());
  }

  lemma StageableSize(sb: Superblock, staged: seq<nat>)
    requires Stageable(sb, staged)
    ensures |staged| <= MAX_STAGED
  {
  }

  lemma LaidNone(sb: Superblock, view: Disk)
    requires Sane(sb, |view|)
    ensures Laid(sb, view, view, Copies(view, [])) && Chosen(sb, []) == []
  {
  }

  lemma ChosenNext(sb: Superblock, homes: seq<nat>, k: nat)
    requires k < |homes|
    ensures Chosen(sb, homes[..k + 1])
            == (var r := Chosen(sb, homes[..k]); if InRange(sb, homes[k]) && !InLog(sb, homes[k]) && homes[k] !in r then r + [homes[k]] else r)
  {
    assert homes[..k + 1][..k] == homes[..k];
  }

  lemma {:induction false} ChosenGrows(sb: Superblock, homes: seq<nat>, k: nat)
    requires k <= |homes|
    ensures |Chosen(sb, homes[..k])| <= |Chosen(sb, homes)|
    decreases |homes| - k
  {
    if k < |homes| {
      ChosenNext(sb, homes, k);
      ChosenGrows(sb, homes, k + 1);
    } else {
      assert homes[..k] == homes;
    }
  }

  /** Changes staged copies, one after another. */
  method ChangeStaged(v: Volume, edits: seq<Edit>, ghost base: Disk, ghost copies: seq<Block>) returns (r: Result<(), FsError>)
    requires v.Valid() && v.open && |copies| == |v.staged| && Laid(v.sb, base, v.cache.View(), copies)
    modifies v.Repr()
    ensures v.Valid() && v.open && v.staged == old(v.staged) && v.sequence == old(v.sequence) && v.cache.store.Ages() && During(old(v.book), v.book, {})
    ensures r.Ok? ==> Laid(v.sb, base, v.cache.View(), Edited(copies, edits))
    ensures Free(old(v.cache.slots)) ==> Free(v.cache.slots)
    ensures r.Err? && Free(old(v.cache.slots)) ==> v.cache.store.Failed()
  {
    hide Secure, Coherent, Timed, ReadHead, CacheModel.View, Dirty, Free, Quiet, During, Added, Laid, Stageable;
    DuringSame(v.book, {});
    for k := 0 to |edits|
      invariant v.Valid() && v.open && v.staged == old(v.staged) && v.sequence == old(v.sequence) && v.cache.store.Ages() && During(old(v.book), v.book, {})
      invariant Laid(v.sb, base, v.cache.View(), Edited(copies, edits[..k]))
      invariant Free(old(v.cache.slots)) ==> Free(v.cache.slots)
    {
      assert edits[..k + 1][..k] == edits[..k];
      if edits[k].0 < |v.staged| {
        ghost var book, shown := v.book, v.cache.View();
        LaidReads(v.sb, base, shown, Edited(copies, edits[..k]), edits[k].0);
        r := v.EditStaged(edits[k].0, edits[k].1);
        DuringStep(old(v.book), book, v.book, {});
        if r.Err? {
          return;
        }
        LaidChanged(v.sb, base, shown, Edited(copies, edits[..k]), edits[k].0, v.cache.View()[v.SlotBlock(edits[k].0)]);
      }
    }
    assert edits[..|edits|] == edits;
    return Ok(());
  }

  lemma LaidReads(sb: Superblock, base: Disk, view: Disk, copies: seq<Block>, slot: nat)
    requires Laid(sb, base, view, copies) && slot < |copies|
    ensures |copies| < sb.journalBlocks && Sane(sb, |view|) && view[sb.journalStart + 1 + slot] == copies[slot]
  {
  }

  /** What is promised of copies laid out in the log is that they land. */
  lemma LaidLands(sb: Superblock, base: Disk, view: Disk, homes: seq<nat>, copies: seq<Block>)
    requires Laid(sb, base, view, copies) && |homes| == |copies|
    ensures SameOutside(sb, Promised(sb, view, homes), Landing(base, homes, copies))
  {
    hide Last;
    forall b | 0 <= b < |view| && !InLog(sb, b)
      ensures Promised(sb, view, homes)[b] == Landing(base, homes, copies)[b]
    {
      if b in homes {
        var i := Last(homes, b) - 1;
        assert view[sb.journalStart + 1 + i] == copies[i];
      }
    }
  }

  /** Builds an operation's transaction: begins, changes its data, stages its blocks and changes the copies. */
  method Build(v: Volume, t: Transaction) returns (r: Result<(), FsError>)
    requires v.Valid() && MAX_STAGED < v.sb.journalBlocks
    modifies v.Repr()
    ensures v.Valid() && v.cache.store.Ages() && (Free(old(v.cache.slots)) ==> Free(v.cache.slots))
    ensures v.sequence == Number(old(v.sequence), 1) || (r.Err? && v.sequence == old(v.sequence))
    ensures old(v.book.phase.Building?) ==> v.book.phase.Building? && During(old(v.book), v.book, InPlace(v.sb, t.data))
    ensures r.Ok? ==>
              && v.open && v.staged == Chosen(v.sb, t.homes) && |v.staged| <= MAX_STAGED && Fitting(v.sb, |old(v.cache.View())|, t)
              && Sane(v.sb, |v.cache.View()|) && |v.cache.View()| == |old(v.cache.View())|
              && SameOutside(v.sb, Promised(v.sb, v.cache.View(), v.staged), Applied(v.sb, old(v.cache.View()), t))
    ensures old(v.book.phase.Committing?) ==> r.Err? && Added(old(v.book), v.book) && Alike(old(v.book), v.book)
    ensures r.Err? && Free(old(v.cache.slots)) && Committed(v.sb, old(v.cache.View())).None? ==>
              v.cache.store.Failed() || !Fitting(v.sb, |old(v.cache.View())|, t)
  {
    hide Secure, Coherent, Timed, ReadHead, CacheModel.View, Dirty, Free, Quiet, During, Added, Laid, Stageable, Overlaid, Edited, Copies,
      Landing, Promised, Committed, InPlace, InDevice, Chosen, SameOutside;
    ghost var book0, touched := v.book, InPlace(v.sb, t.data);
    if book0.phase.Committing? {
      ShownCommits(v.sb, book0, v.cache.View(), v.cache.Waiting(), v.cache.store.history, v.Steady());
    }
    r := v.Begin();
    LookedDuring(book0, v.book, touched);
    if r.Err? {
      return;
    }
    ghost var mid := v.book;
    r := ChangeData(v, t.data);
    DuringJoin(book0, mid, v.book, touched, touched);
    if r.Err? {
      return;
    }
    ghost var over := v.cache.View();
    mid := v.book;
    r := StageAll(v, t.homes);
    DuringJoin(book0, mid, v.book, touched, {});
    if r.Err? {
      return;
    }
    mid := v.book;
    r := ChangeStaged(v, t.edits, over, Copies(over, v.staged));
    DuringJoin(book0, mid, v.book, touched, {});
    if r.Err? {
      return;
    }
    LaidLands(v.sb, over, v.cache.View(), v.staged, Edited(Copies(over, v.staged), t.edits));
  }

  lemma LookedDuring(book: Book, book': Book, touched: set<nat>)
    requires Added(book, book') && Alike(book, book')
    ensures book.phase.Building? ==> During(book, book', touched)
  {
  }

  /**
   Runs one operation as far as it goes, over a log long enough for any transaction.
   Whatever happens, and wherever the machine stops, the device stands for the state
   the operation began from, but for the data it touched, or for the whole of what the
   operation makes of what was shown. With nothing pending and no frame held it succeeds
   exactly when it fits, unless the device fails.
   */
  method Transact(v: Volume, t: Transaction) returns (r: Result<(), FsError>, ghost next: Disk)
    requires v.Valid() && MAX_STAGED < v.sb.journalBlocks
    modifies v.Repr()
    ensures v.Valid() && v.cache.store.Ages() && Sane(v.sb, |old(v.cache.View())|)
    ensures SameOutside(v.sb, next, Applied(v.sb, old(v.cache.View()), t))
    ensures Did(old(v.book), v.book, InPlace(v.sb, t.data), next)
    ensures v.sequence == Number(old(v.sequence), 1) || (r.Err? && v.sequence == old(v.sequence))
    ensures r.Ok? ==> Numbered(v.sb, v.cache.store.history, |old(v.cache.store.history)|, v.sequence, t)
    ensures r.Ok? && Chosen(v.sb, t.homes) != [] ==>
              && v.book.txn == old(v.book.txn) + 1 && Newest(v.book)
              && SameOutside(v.sb, v.cache.View(), Applied(v.sb, old(v.cache.View()), t))
    ensures Free(old(v.cache.slots)) ==> Free(v.cache.slots)
    ensures r.Ok? ==> Fitting(v.sb, |old(v.cache.View())|, t)
    ensures r.Err? && Free(old(v.cache.slots)) && Committed(v.sb, old(v.cache.View())).None? ==>
              v.cache.store.Failed() || !Fitting(v.sb, |old(v.cache.View())|, t)
    ensures old(v.book.phase.Building?) && v.book.phase.Committing? ==> v.Arrived() || v.cache.store.refused
  {
    hide Secure, Coherent, Timed, ReadHead, CacheModel.View, Dirty, Free, Quiet, During, Added, Stageable, Did, Applied, Promised, Outcome,
      Newest, Committed, InPlace, InDevice, Fulfils, Ordering, Finished, Chosen, SameOutside, Reaches, Announced, Number;
    ghost var book0, touched := v.book, InPlace(v.sb, t.data);
    next := Applied(v.sb, v.cache.View(), t);
    SameAsItself(v.sb, next);
    r := Build(v, t);
    if book0.phase.Building? {
      DuringDid(book0, v.book, touched, next);
    } else {
      LookedDid(book0, v.book, touched, next);
    }
    if r.Err? {
      return;
    }
    ghost var mid := v.book;
    next := Promised(v.sb, v.cache.View(), v.staged);
    var order := if |t.order| == |v.staged| && Covers(t.order, |v.staged|) then t.order else [];
    CoversFulfils(v.sb, v.cache.View(), v.staged, order);
    ghost var h := v.cache.store.history;
    r := v.Commit(order);
    if r.Ok? && Chosen(v.sb, t.homes) != [] {
      AnnouncedSooner(v.sb, v.cache.store.history, |old(v.cache.store.history)|, |h|, Journal.Commit(v.sequence, |Chosen(v.sb, t.homes)|));
    }
    CommittedDid(book0, mid, v.book, touched, next);
    if r.Ok? && Chosen(v.sb, t.homes) != [] {
      SameTwice(v.sb, v.cache.View(), next, Applied(v.sb, old(v.cache.View()), t));
    }
  }

  /** An operation that has something to commit is committed on the device under its number. */
  ghost predicate Numbered(sb: Superblock, h: seq<Disk>, since: nat, number: nat, t: Transaction) {
    Chosen(sb, t.homes) != [] ==> Announced(sb, h, since, Journal.Commit(number, |Chosen(sb, t.homes)|))
  }

  lemma AnnouncedSooner(sb: Superblock, h: seq<Disk>, since: nat, later: nat, c: Journal.Commit)
    requires Announced(sb, h, later, c) && since <= later
    ensures Announced(sb, h, since, c)
  {
    hide Committed;
  }

  /** Operations numbered in order from `first`, each on the device under its number by the time it was answered. */
  ghost predicate InOrder(sb: Superblock, first: nat, h: seq<Disk>, work: seq<Transaction>, numbers: seq<nat>, states: seq<nat>) {
    && |numbers| <= |work| && |states| == |numbers| + 1
    && (forall i | 0 <= i < |states| :: states[i] <= |h|) && (forall i, j | 0 <= i <= j < |states| :: states[i] <= states[j])
    && forall i | 0 <= i < |numbers| ::
         numbers[i] == Number(first, i + 1) && Numbered(sb, h[..states[i + 1]], states[i], numbers[i], work[i])
  }

  lemma OrderStays(sb: Superblock, first: nat, h: seq<Disk>, h': seq<Disk>, work: seq<Transaction>, numbers: seq<nat>, states: seq<nat>)
    requires InOrder(sb, first, h, work, numbers, states) && h <= h'
    ensures InOrder(sb, first, h', work, numbers, states)
  {
    hide Numbered, Number;
    forall i | 0 <= i < |numbers|
      ensures numbers[i] == Number(first, i + 1) && Numbered(sb, h'[..states[i + 1]], states[i], numbers[i], work[i])
    {
      assert h'[..states[i + 1]] == h[..states[i + 1]];
    }
  }

  lemma OrderMore(sb: Superblock, first: nat, h: seq<Disk>, work: seq<Transaction>, numbers: seq<nat>, states: seq<nat>, number: nat)
    requires InOrder(sb, first, h, work, numbers, states) && |numbers| < |work| && number == Number(first, |numbers| + 1)
    requires Numbered(sb, h, states[|numbers|], number, work[|numbers|])
    ensures InOrder(sb, first, h, work, numbers + [number], states + [|h|])
  {
    hide Numbered, Number;
    var numbers', states' := numbers + [number], states + [|h|];
    assert h[..|h|] == h;
    forall i | 0 <= i < |numbers'|
      ensures numbers'[i] == Number(first, i + 1) && Numbered(sb, h[..states'[i + 1]], states'[i], numbers'[i], work[i])
    {
      if i < |numbers| {
        assert states'[i] == states[i] && states'[i + 1] == states[i + 1] && numbers'[i] == numbers[i];
      }
    }
  }

  lemma OrderApart(sb: Superblock, first: nat, h: seq<Disk>, work: seq<Transaction>, numbers: seq<nat>, states: seq<nat>, i: nat, j: nat)
    requires InOrder(sb, first, h, work, numbers, states) && first < U64 && i < j < |numbers| && j < i + (U64 - 1)
    ensures numbers[i] != numbers[j]
  {
    hide Numbered, Number;
    NumbersApart(first, i + 1, j + 1);
  }

  /**
   Runs operations in turn on one volume until one fails, with the number each had and
   how many states the device had been in after it. They are numbered in order, each is
   on the device under its own number, and no two within 2^64 - 1 have the same.
   */
  method InTurn(v: Volume, work: seq<Transaction>) returns (numbers: seq<nat>, states: seq<nat>)
    requires v.Valid() && MAX_STAGED < v.sb.journalBlocks
    modifies v.Repr()
    ensures v.Valid() && v.cache.store.Ages()
    ensures InOrder(v.sb, old(v.sequence), v.cache.store.history, work, numbers, states)
    ensures states[0] == |old(v.cache.store.history)|
    ensures forall i: nat, j: nat | i < j < |numbers| && j < i + (U64 - 1) :: numbers[i] != numbers[j]
  {
    hide Secure, Coherent, Timed, ReadHead, CacheModel.View, Dirty, Free, Quiet, Stageable, Did, Applied, Newest, Committed, InPlace, Chosen,
      SameOutside, Number, Numbered, InOrder;
    ghost var first := v.sequence;
    numbers, states := [], [|v.cache.store.history|];
    OrderBegins(v.sb, first, v.cache.store.history, work);
    for k := 0 to |work|
      invariant v.Valid() && v.cache.store.Ages() && |numbers| == k && |states| == k + 1 && states[0] == |old(v.cache.store.history)|
      invariant v.sequence == Number(first, k) && first < U64 && states[k] == |v.cache.store.history|
      invariant InOrder(v.sb, first, v.cache.store.history, work, numbers, states)
    {
      ghost var h := v.cache.store.history;
      var r;
      ghost var next;
      r, next := Transact(v, work[k]);
      OrderStays(v.sb, first, h, v.cache.store.history, work, numbers, states);
      if r.Err? {
        break;
      }
      NumberFollows(first, k);
      OrderMore(v.sb, first, v.cache.store.history, work, numbers, states, v.sequence);
      numbers, states := numbers + [v.sequence], states + [|v.cache.store.history|];
    }
    forall i: nat, j: nat | i < j < |numbers| && j < i + (U64 - 1)
      ensures numbers[i] != numbers[j]
    {
      OrderApart(v.sb, first, v.cache.store.history, work, numbers, states, i, j);
    }
  }

  lemma OrderBegins(sb: Superblock, first: nat, h: seq<Disk>, work: seq<Transaction>)
    ensures InOrder(sb, first, h, work, [], [|h|]) && Number(first, 0) == first
  {
  }

  lemma SameAsItself(sb: Superblock, d: Disk)
    ensures SameOutside(sb, d, d)
  {
  }

  lemma SameTwice(sb: Superblock, a: Disk, b: Disk, c: Disk)
    requires SameOutside(sb, a, b) && SameOutside(sb, b, c)
    ensures SameOutside(sb, a, c)
  {
  }

  /** Beginning commits nothing. */
  lemma LookedDid(book: Book, book': Book, touched: set<nat>, next: Disk)
    requires Added(book, book') && Alike(book, book')
    ensures Did(book, book', touched, next)
  {
  }
}
