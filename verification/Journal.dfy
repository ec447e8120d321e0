/** The write-ahead log: what a commit block says, and what replaying it makes of a disk. */
module Journal {
  import opened Words
  import opened Blocks
  import opened Superblocks
  import opened CacheModel
  import opened PageCache
  import Checksum

  const JOURNAL_MAGIC: nat := 0x4A58_494B_5341_4842
  const MAX_STAGED: nat := 8
  const TABLE: nat := 24
  const HEAD: nat := TABLE + MAX_STAGED * 4
  const ENTRIES: nat := (BLOCK - TABLE) / 4

  datatype Commit = Commit(sequence: nat, count: nat)

  // ----- what the bytes mean

  function Magic(head: Block): nat { At(head, 0, 8).value }
  function Sequence(head: Block): nat { At(head, 8, 8).value }
  function Count(head: Block): nat { At(head, 16, 4).value }
  function Stored(head: Block): nat { At(head, 20, 4).value }

  /** Where the `i`th logged block belongs. */
  function Target(head: Block, i: nat): nat
    requires i < ENTRIES
  {
    At(head, TABLE + i * 4, 4).value
  }

  /** A header that could announce a transaction in a log of `journalBlocks` blocks. */
  predicate Announces(head: Block, journalBlocks: nat) {
    && Magic(head) == JOURNAL_MAGIC && Sequence(head) != 0
    && 0 < Count(head) <= MAX_STAGED && Count(head) < journalBlocks
  }

  function FoldBlocks(hash: Checksum.Hash, blocks: seq<Block>): Checksum.Hash {
    if blocks == [] then hash
    else Checksum.Fold(FoldBlocks(hash, blocks[..|blocks| - 1]), blocks[|blocks| - 1])
  }

  /** The checksum of a header, its table and the blocks it logs. */
  function Sum(head: Bytes, payload: seq<Block>): Checksum.Hash
    requires |payload| <= MAX_STAGED && HEAD <= |head|
  {
    var hash := Checksum.Fold(Checksum.SEED, head[..20]);
    var hash := Checksum.Fold(hash, head[TABLE..TABLE + |payload| * 4]);
    Checksum.NonZero(FoldBlocks(hash, payload))
  }

  function Joined(blocks: seq<Block>): Bytes {
    if blocks == [] then [] else Joined(blocks[..|blocks| - 1]) + blocks[|blocks| - 1]
  }

  lemma {:induction false} FoldJoined(hash: Checksum.Hash, blocks: seq<Block>)
    ensures FoldBlocks(hash, blocks) == Checksum.Fold(hash, Joined(blocks))
  {
    if blocks != [] {
      FoldJoined(hash, blocks[..|blocks| - 1]);
      Checksum.FoldSplits(hash, Joined(blocks[..|blocks| - 1]), blocks[|blocks| - 1]);
    }
  }

  /** The running checksum, folded piece by piece, is the checksum of the pieces end to end. */
  lemma SumIsOfWhole(head: Bytes, payload: seq<Block>)
    requires |payload| <= MAX_STAGED && HEAD <= |head|
    ensures Sum(head, payload) == Checksum.Of(head[..20] + head[TABLE..TABLE + |payload| * 4] + Joined(payload))
  {
    var front := head[..20] + head[TABLE..TABLE + |payload| * 4];
    Checksum.FoldSplits(Checksum.SEED, head[..20], head[TABLE..TABLE + |payload| * 4]);
    Checksum.FoldSplits(Checksum.SEED, front, Joined(payload));
    FoldJoined(Checksum.Fold(Checksum.SEED, front), payload);
  }

  /** The first `count` logged blocks. */
  function Payload(sb: Superblock, d: Disk, count: nat): (p: seq<Block>)
    requires Sane(sb, |d|) && count < sb.journalBlocks
    ensures |p| == count
  {
    d[sb.journalStart + 1..sb.journalStart + 1 + count]
  }

  /** The transaction a disk holds, if it holds one that must be applied. */
  function Committed(sb: Superblock, d: Disk): (c: Option<Commit>)
    requires Sane(sb, |d|)
    ensures c.Some? ==> c.value.count == Count(d[sb.journalStart]) && 0 < c.value.count <= MAX_STAGED
    ensures c.Some? ==> c.value.count < sb.journalBlocks && c.value.sequence != 0
  {
    var head := d[sb.journalStart];
    if Announces(head, sb.journalBlocks) && Stored(head) == Sum(head, Payload(sb, d, Count(head)))
    then Some(Commit(Sequence(head), Count(head))) else None
  }

  // ----- reading it through the cache

  /** The only reasons a page in range cannot be had: the device failed, or every frame is held. */
  ghost predicate Hindered(failed: bool, slots: seq<Slot>) {
    failed || AllPinned(slots)
  }

  /** Reads the commit block, if it holds a committed transaction. */
  method ReadCommitted(pages: Cache, sb: Superblock) returns (r: Result<Option<Commit>, FsError>)
    requires pages.Valid() && Sane(sb, |pages.store.blocks|)
    modifies pages.Repr()
    ensures pages.Looked()
    ensures r.Ok? ==> |pages.View()| == |old(pages.View())| && r.value == Committed(sb, pages.View()) && sb.journalStart < U32
    ensures r.Err? ==> sb.journalStart >= U32 || Hindered(pages.store.Failed(), old(pages.slots))
  {
    hide Looks, Coherent, Timed, AllPinned, Fetched, At, CacheModel.View, Sum, SpillStep;
    ghost var before, history := pages.Now(), pages.store.history;
    if sb.journalStart >= U32 {
      LooksSame(before, history);
      return Err(OutOfRange);
    }
    var head := pages.Page(sb.journalStart);
    LooksSees(before, history, pages.Now(), pages.store.history);
    LooksPins(before, history, pages.Now(), pages.store.history);
    if head.Err? {
      return Err(head.error);
    }
    var magic, sequence, count := Magic(head.value), Sequence(head.value), Count(head.value);
    if magic != JOURNAL_MAGIC || sequence == 0 || count == 0 || count > MAX_STAGED || count >= sb.journalBlocks {
      return Ok(None);
    }
    ghost var mid, history' := pages.Now(), pages.store.history;
    var expected := TransactionChecksum(pages, sb, count);
    LooksJoin(before, history, mid, history', pages.Now(), pages.store.history);
    LooksSees(before, history, pages.Now(), pages.store.history);
    LooksPins(before, history, pages.Now(), pages.store.history);
    if expected.Err? {
      return Err(expected.error);
    }
    mid, history' := pages.Now(), pages.store.history;
    var again := pages.Page(sb.journalStart);
    LooksJoin(before, history, mid, history', pages.Now(), pages.store.history);
    LooksSees(before, history, pages.Now(), pages.store.history);
    LooksPins(before, history, pages.Now(), pages.store.history);
    if again.Err? {
      return Err(again.error);
    }
    if Stored(again.value) != expected.value {
      return Ok(None);
    }
    return Ok(Some(Commit(sequence, count)));
  }

  /** The checksum a commit block should carry. */
  method TransactionChecksum(pages: Cache, sb: Superblock, count: nat) returns (r: Result<Checksum.Hash, FsError>)
    requires pages.Valid() && Sane(sb, |pages.store.blocks|) && sb.journalStart < U32
    requires count <= MAX_STAGED && count < sb.journalBlocks
    modifies pages.Repr()
    ensures pages.Looked()
    ensures r.Ok? ==> |pages.View()| == |old(pages.View())|
                      && r.value == Sum(pages.View()[sb.journalStart], Payload(sb, pages.View(), count))
    ensures r.Err? ==> Hindered(pages.store.Failed(), old(pages.slots))
  {
    hide Looks, Coherent, Timed, Checksum.Fold, Checksum.Step, FromLe, CacheModel.View, AllPinned;
    ghost var before, history := pages.Now(), pages.store.history;
    ghost var view := pages.View();
    var head := pages.Page(sb.journalStart);
    LooksSees(before, history, pages.Now(), pages.store.history);
    LooksPins(before, history, pages.Now(), pages.store.history);
    if head.Err? {
      return Err(head.error);
    }
    var hash := Checksum.Continue(Checksum.SEED, head.value[..20]);
    hash := Checksum.Continue(hash, head.value[TABLE..TABLE + count * 4]);
    var rest := FoldPages(pages, sb, hash, count, before, history);
    if rest.Err? {
      return Err(rest.error);
    }
    return Ok(Checksum.NonZero(rest.value));
  }

  /** Folds the logged blocks one after another; no two need be resident together. */
  method FoldPages(pages: Cache, sb: Superblock, hash: Checksum.Hash, count: nat, ghost before: State, ghost history: seq<Disk>)
    returns (r: Result<Checksum.Hash, FsError>)
    requires pages.Valid() && Sane(sb, |pages.store.blocks|) && count < sb.journalBlocks
    requires Looks(before, history, pages.Now(), pages.store.history)
    modifies pages.Repr()
    ensures pages.Valid() && pages.View() == old(pages.View()) && pages.store.Ages()
    ensures Looks(before, history, pages.Now(), pages.store.history)
    ensures r.Ok? ==> r.value == FoldBlocks(hash, Payload(sb, old(pages.View()), count))
    ensures r.Err? ==> Hindered(pages.store.Failed(), before.slots)
  {
    hide Looks, Coherent, Timed, Checksum.Fold, Checksum.Step, FromLe, CacheModel.View, AllPinned;
    ghost var view := pages.View();
    ghost var payload := Payload(sb, view, count);
    var h := hash;
    LooksSees(before, history, pages.Now(), pages.store.history);
    LooksPins(before, history, pages.Now(), pages.store.history);
    for i := 0 to count
      invariant pages.Valid() && pages.View() == view && pages.store.Ages()
      invariant Looks(before, history, pages.Now(), pages.store.history)
      invariant h == FoldBlocks(hash, payload[..i])
    {
      ghost var mid, history' := pages.Now(), pages.store.history;
      LooksPins(before, history, mid, history');
      var logged := pages.Page(sb.journalStart + 1 + i);
      LooksJoin(before, history, mid, history', pages.Now(), pages.store.history);
      LooksSees(before, history, pages.Now(), pages.store.history);
      LooksPins(before, history, pages.Now(), pages.store.history);
      if logged.Err? {
        return Err(logged.error);
      }
      assert payload[..i + 1][..i] == payload[..i];
      h := Checksum.Continue(h, logged.value);
    }
    assert payload[..count] == payload;
    return Ok(h);
  }

  /** Where the `index`th logged block belongs, range-checked on the way out. */
  method ReadHome(pages: Cache, sb: Superblock, index: nat) returns (r: Result<nat, FsError>)
    requires pages.Valid() && Sane(sb, |pages.store.blocks|)
    modifies pages.Repr()
    ensures pages.Looked()
    ensures r.Ok? ==> |pages.View()| == |old(pages.View())| && index < ENTRIES && sb.journalStart < U32
                      && r.value == Target(pages.View()[sb.journalStart], index) && InRange(sb, r.value)
    ensures r.Ok? ==> pages.wants == old(pages.wants) + [sb.journalStart] && Find(pages.slots, sb.journalStart).Some?
                      && Fetched(old(pages.Now()), old(pages.wants), old(pages.store.history), pages.Now(), pages.store.history,
                                 sb.journalStart, Find(pages.slots, sb.journalStart).value)
    ensures r == Err(OutOfRange) ==> sb.journalStart >= U32 || index >= ENTRIES
                                     || !InRange(sb, Target(old(pages.View())[sb.journalStart], index))
    ensures r.Err? && r.error != OutOfRange ==> Hindered(pages.store.Failed(), old(pages.slots))
  {
    hide Looks, Coherent, Timed, FromLe, AllPinned;
    ghost var before, history := pages.Now(), pages.store.history;
    if sb.journalStart >= U32 {
      LooksSame(before, history);
      return Err(OutOfRange);
    }
    var head := pages.Page(sb.journalStart);
    LooksSees(before, history, pages.Now(), pages.store.history);
    LooksPins(before, history, pages.Now(), pages.store.history);
    if head.Err? {
      return Err(head.error);
    }
    if index >= ENTRIES {
      return Err(OutOfRange);
    }
    var destination := Target(head.value, index);
    if !InRange(sb, destination) {
      return Err(OutOfRange);
    }
    return Ok(destination);
  }

  predicate InRange(sb: Superblock, destination: nat) {
    destination != 0 && destination < sb.blocks
  }

  // ----- building one

  /** `head` announces `sequence` and `homes`, and carries the checksum of itself and `payload`. */
  predicate Describes(head: Bytes, sequence: nat, homes: seq<nat>, payload: seq<Block>) {
    && |homes| == |payload| <= MAX_STAGED && HEAD <= |head|
    && At(head, 0, 8) == Some(JOURNAL_MAGIC)
    && At(head, 8, 8) == Some(sequence)
    && At(head, 16, 4) == Some(|homes|)
    && At(head, 20, 4) == Some(Sum(head, payload))
    && forall i | 0 <= i < |homes| :: At(head, TABLE + i * 4, 4) == Some(homes[i])
  }

  /** The header and table of a commit, before its checksum is known. */
  method BuildTable(sequence: nat, homes: seq<nat>) returns (head: Bytes)
    requires sequence < U64 && 0 < |homes| <= MAX_STAGED && forall i | 0 <= i < |homes| :: homes[i] < U32
    ensures |head| == HEAD
    ensures At(head, 0, 8) == Some(JOURNAL_MAGIC) && At(head, 8, 8) == Some(sequence) && At(head, 16, 4) == Some(|homes|)
    ensures forall i | 0 <= i < |homes| :: At(head, TABLE + i * 4, 4) == Some(homes[i])
  {
    hide FromLe, ToLe, Span;
    Spans();
    head := Zeros(HEAD);
    WrittenReads(head, 0, JOURNAL_MAGIC, 8);
    head := Written(head, 0, ToLe(JOURNAL_MAGIC, 8));
    WrittenReads(head, 8, sequence, 8);
    WrittenElsewhere(head, 8, ToLe(sequence, 8), 0, 8);
    head := Written(head, 8, ToLe(sequence, 8));
    WrittenReads(head, 16, |homes|, 4);
    WrittenElsewhere(head, 16, ToLe(|homes|, 4), 0, 8);
    WrittenElsewhere(head, 16, ToLe(|homes|, 4), 8, 8);
    head := Written(head, 16, ToLe(|homes|, 4));
    for index := 0 to |homes|
      invariant |head| == HEAD
      invariant At(head, 0, 8) == Some(JOURNAL_MAGIC) && At(head, 8, 8) == Some(sequence) && At(head, 16, 4) == Some(|homes|)
      invariant forall i | 0 <= i < index :: At(head, TABLE + i * 4, 4) == Some(homes[i])
    {
      TableEntry(head, homes, index);
      head := Written(head, TABLE + index * 4, ToLe(homes[index], 4));
    }
  }

  lemma TableEntry(head: Bytes, homes: seq<nat>, index: nat)
    requires |head| == HEAD && index < |homes| <= MAX_STAGED && homes[index] < U32
    requires forall i | 0 <= i < index :: At(head, TABLE + i * 4, 4) == Some(homes[i])
    ensures var head' := Written(head, TABLE + index * 4, ToLe(homes[index], 4));
            && (forall i | 0 <= i <= index :: At(head', TABLE + i * 4, 4) == Some(homes[i]))
            && At(head', 0, 8) == At(head, 0, 8) && At(head', 8, 8) == At(head, 8, 8) && At(head', 16, 4) == At(head, 16, 4)
  {
    hide FromLe, ToLe, Span;
    Spans();
    var value := ToLe(homes[index], 4);
    WrittenReads(head, TABLE + index * 4, homes[index], 4);
    WrittenElsewhere(head, TABLE + index * 4, value, 0, 8);
    WrittenElsewhere(head, TABLE + index * 4, value, 8, 8);
    WrittenElsewhere(head, TABLE + index * 4, value, 16, 4);
    forall i | 0 <= i < index
      ensures At(Written(head, TABLE + index * 4, value), TABLE + i * 4, 4) == Some(homes[i])
    {
      WrittenElsewhere(head, TABLE + index * 4, value, TABLE + i * 4, 4);
    }
  }

  /** Adding the checksum changes none of the bytes it covers. */
  lemma Sealed(head: Bytes, sequence: nat, homes: seq<nat>, payload: seq<Block>)
    requires |head| == HEAD && |homes| == |payload| <= MAX_STAGED
    requires At(head, 0, 8) == Some(JOURNAL_MAGIC) && At(head, 8, 8) == Some(sequence) && At(head, 16, 4) == Some(|homes|)
    requires forall i | 0 <= i < |homes| :: At(head, TABLE + i * 4, 4) == Some(homes[i])
    ensures Describes(Written(head, 20, ToLe(Sum(head, payload), 4)), sequence, homes, payload)
  {
    hide FromLe, ToLe, Span, Checksum.Fold, FoldBlocks;
    Spans();
    var value := ToLe(Sum(head, payload), 4);
    var head' := Written(head, 20, value);
    WrittenReads(head, 20, Sum(head, payload), 4);
    WrittenElsewhere(head, 20, value, 0, 8);
    WrittenElsewhere(head, 20, value, 8, 8);
    WrittenElsewhere(head, 20, value, 16, 4);
    forall i | 0 <= i < |homes|
      ensures At(head', TABLE + i * 4, 4) == Some(homes[i])
    {
      WrittenElsewhere(head, 20, value, TABLE + i * 4, 4);
    }
    assert head'[..20] == head[..20];
    assert head'[TABLE..TABLE + |payload| * 4] == head[TABLE..TABLE + |payload| * 4];
  }

  /** Builds the commit block's meaningful bytes for a payload already in place. */
  method BuildCommit(pages: Cache, sb: Superblock, sequence: nat, homes: seq<nat>) returns (r: Result<Bytes, FsError>)
    requires pages.Valid() && Sane(sb, |pages.store.blocks|)
    requires sequence < U64 && forall i | 0 <= i < |homes| :: homes[i] < U32
    modifies pages.Repr()
    ensures pages.Looked()
    ensures r.Ok? ==> |r.value| == HEAD && 0 < |homes| < sb.journalBlocks && |pages.View()| == |old(pages.View())| && sb.journalStart < U32
                      && Describes(r.value, sequence, homes, Payload(sb, pages.View(), |homes|))
    ensures |homes| == 0 || |homes| > MAX_STAGED || |homes| >= sb.journalBlocks ==> r == Err(Full)
    ensures r.Err? ==> || |homes| == 0 || |homes| > MAX_STAGED || |homes| >= sb.journalBlocks || sb.journalStart >= U32
                       || Hindered(pages.store.Failed(), old(pages.slots))
  {
    hide Looks, Coherent, Timed, Checksum.Fold, Checksum.Step, FromLe, ToLe, AllPinned, FoldBlocks, Describes;
    ghost var before, history := pages.Now(), pages.store.history;
    LooksSame(before, history);
    if |homes| == 0 || |homes| > MAX_STAGED || |homes| >= sb.journalBlocks {
      return Err(Full);
    }
    var head := BuildTable(sequence, homes);
    if sb.journalStart >= U32 {
      return Err(OutOfRange);
    }
    var hash := Checksum.Continue(Checksum.SEED, head[..20]);
    hash := Checksum.Continue(hash, head[TABLE..TABLE + |homes| * 4]);
    var rest := FoldPages(pages, sb, hash, |homes|, before, history);
    if rest.Err? {
      return Err(rest.error);
    }
    Sealed(head, sequence, homes, Payload(sb, pages.View(), |homes|));
    return Ok(Written(head, 20, ToLe(Checksum.NonZero(rest.value), 4)));
  }

  /** The page a commit is written into: zeroed, then the head over its front. */
  function Page(head: Bytes): (page: Block)
    requires |head| == HEAD
  {
    head + Zeros(BLOCK - HEAD)
  }

  /** Round trip: a page built by `BuildCommit` is read back as that transaction, home by home. */
  lemma CommitReadsBack(sb: Superblock, d: Disk, head: Bytes, sequence: nat, homes: seq<nat>)
    requires Sane(sb, |d|) && |head| == HEAD && 0 < sequence && 0 < |homes| < sb.journalBlocks
    requires Describes(head, sequence, homes, Payload(sb, d, |homes|))
    ensures var d' := d[sb.journalStart := Page(head)];
            && Committed(sb, d') == Some(Commit(sequence, |homes|))
            && forall i | 0 <= i < |homes| :: Target(d'[sb.journalStart], i) == homes[i]
  {
    hide FromLe, Checksum.Fold, FoldBlocks;
    var page := Page(head);
    var d' := d[sb.journalStart := page];
    PageReads(head, 0, 8);
    PageReads(head, 8, 8);
    PageReads(head, 16, 4);
    PageReads(head, 20, 4);
    forall i | 0 <= i < |homes|
      ensures Target(page, i) == homes[i]
    {
      PageReads(head, TABLE + i * 4, 4);
    }
    assert Payload(sb, d', |homes|) == Payload(sb, d, |homes|);
    assert page[..20] == head[..20];
    assert page[TABLE..TABLE + |homes| * 4] == head[TABLE..TABLE + |homes| * 4];
  }

  lemma PageReads(head: Bytes, at: nat, width: nat)
    requires |head| == HEAD && at + width <= HEAD
    ensures At(Page(head), at, width) == At(head, at, width)
  {
    assert Page(head)[at..at + width] == head[at..at + width];
  }
}
