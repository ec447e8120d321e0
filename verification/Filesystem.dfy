/** Reading a file's bytes, block by block, through the cache or straight off a disk. */
module Filesystems {
  import opened Words
  import opened Blocks
  import opened CacheModel
  import opened PageCache
  import opened Superblocks
  import opened Inodes
  import Journal
  import opened Packing

  /** Which block of the disk holds block `which` of a file, if any does. */
  function BlockOf(d: Disk, sb: Superblock, inode: Inode, which: nat): (r: Option<nat>)
    requires sb.blocks <= |d| && |inode.direct| == DIRECT
    ensures r.Some? ==> 0 < r.value < sb.blocks
  {
    var number :=
      if which < DIRECT then Some(inode.direct[which])
      else if inode.indirect == 0 || inode.indirect >= sb.blocks then None
      else At(d[inode.indirect], (which - DIRECT) * 4, 4);
    if number.None? || number.value == 0 || number.value >= sb.blocks then None else number
  }

  /** Byte `at` of the file, if a block holds it. */
  function FileByte(d: Disk, sb: Superblock, inode: Inode, at: nat): (r: Option<Byte>)
    requires sb.blocks <= |d| && |inode.direct| == DIRECT
  {
    var block := BlockOf(d, sb, inode, at / BLOCK);
    if block.None? then None else Some(d[block.value][at % BLOCK])
  }

  /** How much of `[offset, offset + len)` the file declares. */
  function Want(inode: Inode, offset: nat, len: nat): (n: nat)
    ensures n <= len && (n > 0 ==> inode.kind == File && offset + n <= inode.size)
  {
    if inode.kind != File || offset >= inode.size then 0
    else if len < inode.size - offset then len else inode.size - offset
  }

  /** `out` is the front of what was asked for, byte for byte. */
  ghost predicate Front(d: Disk, sb: Superblock, inode: Inode, offset: nat, want: nat, out: Bytes)
    requires sb.blocks <= |d| && |inode.direct| == DIRECT
  {
    |out| <= want && forall at: nat | offset <= at < offset + |out| :: FileByte(d, sb, inode, at) == Some(out[at - offset])
  }

  /** `out` stops only at the end of what was asked for, or at the first byte no block holds. */
  ghost predicate Complete(d: Disk, sb: Superblock, inode: Inode, offset: nat, want: nat, out: Bytes)
    requires sb.blocks <= |d| && |inode.direct| == DIRECT
  {
    |out| >= want || FileByte(d, sb, inode, offset + |out|).None?
  }

  /** The bytes a read gives are settled by the disk alone. */
  lemma ReadDetermined(d: Disk, sb: Superblock, inode: Inode, offset: nat, want: nat, a: Bytes, b: Bytes)
    requires sb.blocks <= |d| && |inode.direct| == DIRECT
    requires Front(d, sb, inode, offset, want, a) && Complete(d, sb, inode, offset, want, a)
    requires Front(d, sb, inode, offset, want, b) && Complete(d, sb, inode, offset, want, b)
    ensures a == b
  {
    assert |a| == |b|;
    forall i: nat | i < |a|
      ensures a[i] == b[i]
    {
      assert FileByte(d, sb, inode, offset + i) == Some(a[i]);
    }
  }

  /** Taking the rest of one block extends the front by as much. */
  lemma FrontGrows(d: Disk, sb: Superblock, inode: Inode, offset: nat, want: nat, out: Bytes, number: nat, take: nat)
    requires sb.blocks <= |d| && |inode.direct| == DIRECT
    requires Front(d, sb, inode, offset, want, out) && |out| + take <= want
    requires (offset + |out|) % BLOCK + take <= BLOCK
    requires BlockOf(d, sb, inode, (offset + |out|) / BLOCK) == Some(number)
    ensures var within := (offset + |out|) % BLOCK;
            Front(d, sb, inode, offset, want, out + d[number][within..within + take])
  {
    hide BlockOf;
    var at := offset + |out|;
    var more := out + d[number][at % BLOCK..at % BLOCK + take];
    forall k: nat | offset <= k < offset + |more|
      ensures FileByte(d, sb, inode, k) == Some(more[k - offset])
    {
      if k >= at {
        assert k / BLOCK == at / BLOCK && k % BLOCK == at % BLOCK + (k - at);
      }
    }
  }

  // ----- files laid out on a disk

  /** The bytes of the blocks named, end to end. */
  function Gathered(d: Disk, numbers: seq<nat>): (bytes: Bytes)
    requires forall i | 0 <= i < |numbers| :: numbers[i] < |d|
    ensures |bytes| == |numbers| * BLOCK
  {
    if numbers == [] then [] else Gathered(d, numbers[..|numbers| - 1]) + d[numbers[|numbers| - 1]]
  }

  /** Numbers of four bytes each, one after another. */
  function Listed(numbers: seq<nat>): (rows: seq<seq<Item>>) {
    seq(|numbers|, i requires 0 <= i < |numbers| => [Item(4, numbers[i])])
  }

  /**
   `contents` laid over the blocks `numbers`: the first ten named in the inode, the rest
   listed in the block its indirect number names.
   */
  ghost predicate Lays(d: Disk, sb: Superblock, inode: Inode, numbers: seq<nat>, contents: Bytes)
    requires sb.blocks <= |d|
  {
    && inode.kind == File && inode.size == |contents|
    && (forall i | 0 <= i < |numbers| :: 0 < numbers[i] < sb.blocks && numbers[i] < U32)
    && (if |numbers| <= DIRECT then numbers <= inode.direct
        else && numbers[..DIRECT] == inode.direct && 0 < inode.indirect < sb.blocks
             && Stacked(Listed(numbers[DIRECT..])) <= d[inode.indirect])
    && contents <= Gathered(d, numbers)
  }

  /** What a read of `len` bytes from `offset` on should give. */
  function Asked(contents: Bytes, offset: nat, len: nat): Bytes {
    if |contents| <= offset then [] else if offset + len < |contents| then contents[offset..offset + len] else contents[offset..]
  }

  lemma {:induction false} GatheredAt(d: Disk, numbers: seq<nat>, at: nat)
    requires (forall i | 0 <= i < |numbers| :: numbers[i] < |d|) && at < |numbers| * BLOCK
    ensures at / BLOCK < |numbers| && Gathered(d, numbers)[at] == d[numbers[at / BLOCK]][at % BLOCK]
    decreases |numbers|
  {
    var front := numbers[..|numbers| - 1];
    if at < |front| * BLOCK {
      GatheredAt(d, front, at);
    } else {
      assert at / BLOCK == |front| && at % BLOCK == at - |front| * BLOCK;
    }
  }

  /** Entry `k` of a list, wherever it is followed by anything. */
  lemma ListedReads(table: Block, numbers: seq<nat>, k: nat)
    requires (forall i | 0 <= i < |numbers| :: numbers[i] < U32) && Stacked(Listed(numbers)) <= table && k < |numbers|
    ensures At(table, k * 4, 4) == Some(numbers[k])
  {
    hide Stacked;
    Spans();
    var rows := Listed(numbers);
    forall i | 0 <= i < |rows|
      ensures Size(rows[i]) == 4
    {
      assert rows[i][..0] == [];
    }
    StackedReads(table, 0, rows, 4, k, 0);
    assert rows[k][..0] == [];
  }

  /** Block `which` of a file laid out is the one named for it. */
  lemma BlockIsNamed(d: Disk, sb: Superblock, inode: Inode, numbers: seq<nat>, contents: Bytes, which: nat)
    requires sb.blocks <= |d| && |inode.direct| == DIRECT && Lays(d, sb, inode, numbers, contents) && which < |numbers|
    ensures BlockOf(d, sb, inode, which) == Some(numbers[which])
  {
    hide At, Stacked, Listed, Gathered;
    if which < DIRECT {
      assert inode.direct[which] == numbers[which];
    } else {
      var rest := numbers[DIRECT..];
      ListedReads(d[inode.indirect], rest, which - DIRECT);
      assert rest[which - DIRECT] == numbers[which];
    }
  }

  /** All the numbers a file has: the ten of its inode, and if its indirect number is in range all that block lists. */
  ghost predicate Names(d: Disk, sb: Superblock, inode: Inode, numbers: seq<nat>)
    requires sb.blocks <= |d|
  {
    && (forall i | 0 <= i < |numbers| :: numbers[i] < U32)
    && if 0 < inode.indirect < sb.blocks
       then DIRECT <= |numbers| && numbers[..DIRECT] == inode.direct && Stacked(Listed(numbers[DIRECT..])) == d[inode.indirect]
       else numbers == inode.direct
  }

  /** A file has block `which` exactly if it names one for it that is in range, and not zero. */
  lemma BlockOfExactly(d: Disk, sb: Superblock, inode: Inode, numbers: seq<nat>, which: nat)
    requires sb.blocks <= |d| && |inode.direct| == DIRECT && Names(d, sb, inode, numbers)
    ensures BlockOf(d, sb, inode, which) == if which < |numbers| && 0 < numbers[which] < sb.blocks then Some(numbers[which]) else None
  {
    hide At, Stacked, Listed;
    if which < DIRECT {
      assert inode.direct[which] == numbers[which];
    } else if 0 < inode.indirect < sb.blocks {
      var rest := numbers[DIRECT..];
      ListedSize(rest);
      if which < |numbers| {
        ListedReads(d[inode.indirect], rest, which - DIRECT);
        assert rest[which - DIRECT] == numbers[which];
      }
    }
  }

  lemma ListedSize(numbers: seq<nat>)
    ensures |Stacked(Listed(numbers))| == 4 * |numbers|
  {
    hide Stacked;
    var rows := Listed(numbers);
    forall i | 0 <= i < |rows|
      ensures Size(rows[i]) == 4
    {
      assert rows[i][..0] == [];
    }
    StackedSize(rows, 4);
  }

  /** Reading a file laid out gives back what was laid out, as far as was asked. */
  lemma ReadsBack(d: Disk, sb: Superblock, inode: Inode, numbers: seq<nat>, contents: Bytes, offset: nat, len: nat, out: Bytes)
    requires sb.blocks <= |d| && |inode.direct| == DIRECT && Lays(d, sb, inode, numbers, contents)
    requires Front(d, sb, inode, offset, Want(inode, offset, len), out) && Complete(d, sb, inode, offset, Want(inode, offset, len), out)
    ensures out == Asked(contents, offset, len)
  {
    hide BlockOf, Stacked, Listed, Gathered;
    forall at: nat | at < |contents|
      ensures FileByte(d, sb, inode, at) == Some(contents[at])
    {
      GatheredAt(d, numbers, at);
      BlockIsNamed(d, sb, inode, numbers, contents, at / BLOCK);
    }
    assert |out| == |Asked(contents, offset, len)|;
    forall i | 0 <= i < |out|
      ensures out[i] == Asked(contents, offset, len)[i]
    {
      assert FileByte(d, sb, inode, offset + i) == Some(out[offset + i - offset]);
    }
  }

  lemma AllReadBack(d: Disk, sb: Superblock, inode: Inode, offset: nat, len: nat, out: Bytes)
    requires sb.blocks <= |d| && |inode.direct| == DIRECT
    requires Front(d, sb, inode, offset, Want(inode, offset, len), out) && Complete(d, sb, inode, offset, Want(inode, offset, len), out)
    ensures forall numbers, contents | Lays(d, sb, inode, numbers, contents) :: out == Asked(contents, offset, len)
  {
    hide Lays, Front, Complete, Want, Asked;
    forall numbers, contents | Lays(d, sb, inode, numbers, contents)
      ensures out == Asked(contents, offset, len)
    {
      ReadsBack(d, sb, inode, numbers, contents, offset, len, out);
    }
  }

  // ----- reading

  /** Copies from `offset` off a whole disk. */
  method ReadImage(d: Disk, sb: Superblock, inode: Inode, offset: nat, len: nat) returns (out: Bytes)
    requires sb.blocks <= |d| && |inode.direct| == DIRECT
    ensures Front(d, sb, inode, offset, Want(inode, offset, len), out)
    ensures Complete(d, sb, inode, offset, Want(inode, offset, len), out)
    ensures forall numbers, contents | Lays(d, sb, inode, numbers, contents) :: out == Asked(contents, offset, len)
  {
    hide BlockOf, Lays, Asked;
    out := [];
    var want := Want(inode, offset, len);
    while |out| < want
      invariant Front(d, sb, inode, offset, want, out)
      decreases want - |out|
    {
      var at := offset + |out|;
      var number := BlockOf(d, sb, inode, at / BLOCK);
      if number.None? {
        break;
      }
      var within := at % BLOCK;
      var take := if BLOCK - within < want - |out| then BLOCK - within else want - |out|;
      FrontGrows(d, sb, inode, offset, want, out, number.value, take);
      out := out + d[number.value][within..within + take];
    }
    AllReadBack(d, sb, inode, offset, len, out);
  }

  /** Finds a block of the file through the cache; failing to read the table reads as no block. */
  method FindBlock(pages: Cache, sb: Superblock, inode: Inode, which: nat) returns (r: Option<nat>)
    requires pages.Valid() && sb.blocks <= |pages.store.blocks| && |inode.direct| == DIRECT
    modifies pages.Repr()
    ensures pages.Looked()
    ensures r.Some? || !Journal.Hindered(pages.store.Failed(), old(pages.slots))
            ==> |old(pages.View())| >= sb.blocks && r == BlockOf(old(pages.View()), sb, inode, which)
  {
    hide Looks, Coherent, Timed, FromLe, AllPinned;
    ghost var before, history := pages.Now(), pages.store.history;
    var number: Option<nat>;
    if which < DIRECT {
      number := Some(inode.direct[which]);
      LooksSame(before, history);
    } else if inode.indirect == 0 || inode.indirect >= sb.blocks {
      number := None;
      LooksSame(before, history);
    } else {
      var table := pages.Page(inode.indirect);
      LooksSees(before, history, pages.Now(), pages.store.history);
      number := if table.Err? then None else At(table.value, (which - DIRECT) * 4, 4);
    }
    return if number.None? || number.value == 0 || number.value >= sb.blocks then None else number;
  }

  /** Copies from `offset` through the cache: what it gives is right, and it falls short only of a device that failed. */
  method ReadCached(pages: Cache, sb: Superblock, inode: Inode, offset: nat, len: nat) returns (out: Bytes)
    requires pages.Valid() && sb.blocks <= |pages.store.blocks| && |inode.direct| == DIRECT
    modifies pages.Repr()
    ensures pages.Looked() && |old(pages.View())| >= sb.blocks
    ensures Front(old(pages.View()), sb, inode, offset, Want(inode, offset, len), out)
    ensures Complete(old(pages.View()), sb, inode, offset, Want(inode, offset, len), out)
            || Journal.Hindered(pages.store.Failed(), old(pages.slots))
    ensures !Journal.Hindered(pages.store.Failed(), old(pages.slots)) ==>
              forall numbers, contents | Lays(old(pages.View()), sb, inode, numbers, contents) :: out == Asked(contents, offset, len)
  {
    hide Looks, Coherent, Timed, FromLe, AllPinned, BlockOf, CacheModel.View, Front, Fetched, SpillStep, Lays, Asked;
    ghost var before, history, view := pages.Now(), pages.store.history, pages.View();
    LooksSame(before, history);
    out := [];
    var want := Want(inode, offset, len);
    FrontEmpty(view, sb, inode, offset, want);
    while |out| < want
      invariant pages.Valid() && pages.View() == view && pages.store.Ages()
      invariant Looks(before, history, pages.Now(), pages.store.history)
      invariant Front(view, sb, inode, offset, want, out)
      decreases want - |out|
    {
      var at := offset + |out|;
      ghost var mid, history' := pages.Now(), pages.store.history;
      LooksPins(before, history, mid, history');
      var number := FindBlock(pages, sb, inode, at / BLOCK);
      LooksJoin(before, history, mid, history', pages.Now(), pages.store.history);
      LooksSees(before, history, pages.Now(), pages.store.history);
      LooksPins(before, history, pages.Now(), pages.store.history);
      if number.None? {
        break;
      }
      mid, history' := pages.Now(), pages.store.history;
      var block := pages.Page(number.value);
      LooksJoin(before, history, mid, history', pages.Now(), pages.store.history);
      LooksSees(before, history, pages.Now(), pages.store.history);
      if block.Err? {
        break;
      }
      var within := at % BLOCK;
      var take := if BLOCK - within < want - |out| then BLOCK - within else want - |out|;
      FrontGrows(view, sb, inode, offset, want, out, number.value, take);
      out := out + block.value[within..within + take];
    }
    if !Journal.Hindered(pages.store.Failed(), old(pages.slots)) {
      AllReadBack(view, sb, inode, offset, len, out);
    }
  }

  lemma FrontEmpty(d: Disk, sb: Superblock, inode: Inode, offset: nat, want: nat)
    requires sb.blocks <= |d| && |inode.direct| == DIRECT
    ensures Front(d, sb, inode, offset, want, [])
  {
  }
}
