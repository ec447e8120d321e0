/** Where everything on a disk is. */
module Superblocks {
  import opened Words
  import opened Blocks
  import Checksum

  const MAGIC: nat := 0x4658_494B_5341_4842
  const VERSION: nat := 2
  const COVERED: nat := 76
  const INODE: nat := 64
  const JOURNAL_BLOCKS: nat := 9

  datatype Superblock = Superblock(
    blocks: nat, inodes: nat, bitmapStart: nat, inodeStart: nat,
    journalStart: nat, journalBlocks: nat, dataStart: nat, root: nat)

  /** The regions run forwards, tile up to the data, and fit on a device of `device` blocks. */
  predicate Sane(sb: Superblock, device: nat) {
    && 0 < sb.bitmapStart < sb.inodeStart < sb.journalStart < sb.dataStart < sb.blocks <= device
    && 2 <= sb.journalBlocks == sb.dataStart - sb.journalStart
    && sb.root < sb.inodes
  }

  // ----- sanity, said of blocks

  /** Which blocks are the bitmap's, the inode table's, the log's and the data's. */
  datatype Region = Head | Map | Table | Log | Data

  ghost predicate Has(sb: Superblock, region: Region, b: nat) {
    match region
    case Head => b == 0
    case Map => sb.bitmapStart <= b < sb.inodeStart
    case Table => sb.inodeStart <= b < sb.journalStart
    case Log => sb.journalStart <= b < sb.journalStart + sb.journalBlocks
    case Data => sb.dataStart <= b < sb.blocks
  }

  ghost predicate Present(sb: Superblock, region: Region) {
    exists b: nat :: Has(sb, region, b)
  }

  ghost predicate Taken(sb: Superblock, b: nat) {
    exists region :: Has(sb, region, b)
  }

  /**
   Every region has a block, the log two; every block of theirs is one of the
   filesystem's, and no two regions'; from the bitmap on no block is left out; and the
   device holds them all, and the table the root.
   */
  ghost predicate Regular(sb: Superblock, device: nat) {
    && (forall region :: Present(sb, region)) && Has(sb, Log, sb.journalStart + 1)
    && (forall region, b: nat | Has(sb, region, b) :: b < sb.blocks)
    && (forall r, s, b: nat | Has(sb, r, b) && Has(sb, s, b) :: r == s)
    && (forall b: nat | sb.bitmapStart <= b < sb.blocks :: Taken(sb, b))
    && sb.blocks <= device && sb.root < sb.inodes
  }

  /** A superblock is sane exactly if its regions are. */
  lemma SaneExactly(sb: Superblock, device: nat)
    ensures Sane(sb, device) <==> Regular(sb, device)
  {
    if Regular(sb, device) {
      assert Present(sb, Map) && Present(sb, Table) && Present(sb, Data);
      var m: nat :| Has(sb, Map, m);
      var t: nat :| Has(sb, Table, t);
      var d: nat :| Has(sb, Data, d);
      assert !Has(sb, Map, 0) by {
        assert Has(sb, Head, 0);
      }
      var last := sb.journalStart + sb.journalBlocks - 1;
      assert Has(sb, Log, last) && Has(sb, Log, sb.journalStart);
      assert !Has(sb, Data, last) && !Has(sb, Data, sb.journalStart);
      assert last + 1 < sb.blocks ==> Taken(sb, last + 1);
    } else if Sane(sb, device) {
      SaneRegular(sb, device);
    }
  }

  lemma SaneRegular(sb: Superblock, device: nat)
    requires Sane(sb, device)
    ensures Regular(sb, device)
  {
    forall region
      ensures Present(sb, region)
    {
      var b := match region case Head => 0 case Map => sb.bitmapStart case Table => sb.inodeStart case Log => sb.journalStart case Data => sb.dataStart;
      assert Has(sb, region, b);
    }
    forall b: nat | sb.bitmapStart <= b < sb.blocks
      ensures Taken(sb, b)
    {
      var region := if b < sb.inodeStart then Map else if b < sb.journalStart then Table else if b < sb.dataStart then Log else Data;
      assert Has(sb, region, b);
    }
  }

  /** Every field fits the word it is stored in. */
  predicate Wordsized(sb: Superblock) {
    && sb.blocks < U64 && sb.inodes < U64 && sb.bitmapStart < U64 && sb.inodeStart < U64
    && sb.journalStart < U64 && sb.journalBlocks < U64 && sb.dataStart < U64 && sb.root < U32
  }

  /** The fields a superblock's bytes spell. */
  function Fields(head: Block): (sb: Superblock) {
    Superblock(
      At(head, 16, 8).value, At(head, 24, 8).value, At(head, 32, 8).value, At(head, 40, 8).value,
      At(head, 48, 8).value, At(head, 56, 8).value, At(head, 64, 8).value, At(head, 72, 4).value)
  }

  /** Reads it, and refuses anything that does not describe itself. */
  function ReadHead(head: Bytes, device: nat): (r: Result<Superblock, FsError>)
    ensures r.Ok? ==> Sane(r.value, device)
  {
    if |head| < BLOCK then Err(NotAFilesystem)
    else
      var head: Block := head[..BLOCK];
      if At(head, 0, 8) != Some(MAGIC) || At(head, 8, 4) != Some(VERSION) then Err(NotAFilesystem)
      else if At(head, 12, 4) != Some(BLOCK) then Err(NotAFilesystem)
      else if At(head, COVERED, 4) != Some(Checksum.Of(head[..COVERED])) then Err(NotAFilesystem)
      else if Sane(Fields(head), device) then Ok(Fields(head))
      else Err(OutOfRange)
  }
}
