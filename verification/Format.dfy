/** Laying out a fresh filesystem. */
module Formatting {
  import opened Words
  import opened Blocks
  import opened Superblocks
  import opened Inodes
  import opened Bitmaps
  import Recovery
  import Journal
  import Digits

  const ROOT: Inode := Inode(Directory, 1, 1, 0, [0, 0, 0, 0, 0, 0, 0, 0, 0, 0], 0)

  /** The bytes of a root directory with no entries. */
  function RootSlot(): (slot: Bytes)
    ensures |slot| == INODE
  {
    Encode(ROOT)
  }

  lemma RootDecodes()
    ensures Decode(RootSlot()) == Ok(ROOT)
  {
    hide Encode, Decode, Stored;
    RootStored();
    InodeRoundTrip(ROOT);
  }

  lemma RootStored()
    ensures Stored(ROOT)
  {
  }

  function CeilDiv(n: nat, d: nat): nat
    requires d > 0
  {
    (n + d - 1) / d
  }

  function AtLeastOne(n: nat): nat {
    if n == 0 then 1 else n
  }

  /** Where a filesystem of `blocks` blocks and `inodes` inodes puts everything. */
  function Layout(inodes: nat, blocks: nat): Superblock {
    var inodeStart := 1 + AtLeastOne(CeilDiv(blocks, 8 * BLOCK));
    var journalStart := inodeStart + AtLeastOne(CeilDiv(inodes * INODE, BLOCK));
    Superblock(blocks, inodes, 1, inodeStart, journalStart, JOURNAL_BLOCKS, journalStart + JOURNAL_BLOCKS, 0)
  }

  /** A buffer of `size` bytes holds the metadata, and the filesystem has a data block after it. */
  predicate Formattable(size: nat, inodes: nat, blocks: nat) {
    && 0 < inodes && 4 + JOURNAL_BLOCKS <= blocks
    && Layout(inodes, blocks).dataStart < blocks
    && Layout(inodes, blocks).dataStart * BLOCK <= size
  }

  /** The arithmetic of the layout stays inside 64 bits. */
  predicate Countable(inodes: nat, blocks: nat) {
    inodes * INODE < U64 && blocks < U64
  }

  /** Room for the metadata in `size` bytes, a bit for every block and a slot for every inode. */
  predicate Laid(size: nat, sb: Superblock) {
    && Wordsized(sb) && Sane(sb, sb.blocks) && sb.root == 0 && sb.dataStart * BLOCK <= size
    && sb.blocks <= 8 * ((sb.inodeStart - sb.bitmapStart) * BLOCK)
    && sb.inodes * INODE <= (sb.journalStart - sb.inodeStart) * BLOCK
    && sb.journalBlocks == JOURNAL_BLOCKS
  }

  /** A layout that fits is one the reader accepts. */
  lemma LayoutIsLaid(size: nat, inodes: nat, blocks: nat)
    requires Formattable(size, inodes, blocks) && Countable(inodes, blocks)
    ensures Laid(size, Layout(inodes, blocks))
  {
  }

  /** A layout with these counts: a bit for every block, a slot for every inode and a log of its length, then at least one data block. */
  ghost predicate Roomy(sb: Superblock, inodes: nat, blocks: nat) {
    && sb.blocks == blocks && sb.inodes == inodes && 0 < inodes
    && 0 < sb.bitmapStart <= sb.inodeStart <= sb.journalStart && sb.journalBlocks == JOURNAL_BLOCKS
    && sb.journalStart + sb.journalBlocks == sb.dataStart < blocks
    && blocks <= 8 * ((sb.inodeStart - sb.bitmapStart) * BLOCK)
    && inodes * INODE <= (sb.journalStart - sb.inodeStart) * BLOCK
  }

  /** If there is any layout with these counts, this is the only one whose data starts first. */
  lemma LayoutIsLeast(inodes: nat, blocks: nat, sb: Superblock)
    requires Roomy(sb, inodes, blocks)
    ensures 4 + JOURNAL_BLOCKS <= blocks && Roomy(Layout(inodes, blocks), inodes, blocks)
    ensures Layout(inodes, blocks).dataStart <= sb.dataStart
    ensures Layout(inodes, blocks).dataStart == sb.dataStart ==> sb == Layout(inodes, blocks).(root := sb.root)
  {
    CeilIsLeast(blocks, 8 * BLOCK, sb.inodeStart - sb.bitmapStart);
    CeilIsLeast(inodes * INODE, BLOCK, sb.journalStart - sb.inodeStart);
  }

  /** The quotient rounded up is the least number of pieces that hold `n`. */
  lemma CeilIsLeast(n: nat, d: nat, pieces: nat)
    requires 0 < d && n <= pieces * d
    ensures n <= CeilDiv(n, d) * d && CeilDiv(n, d) <= pieces
  {
    var c := CeilDiv(n, d);
    assert n + d - 1 == c * d + (n + d - 1) % d;
    assert (pieces + 1) * d == pieces * d + d;
    if c > pieces {
      Digits.MulGrows(pieces + 1, c, d);
    }
  }

  function BitmapBytes(sb: Superblock): (bits: Bytes)
    requires sb.bitmapStart <= sb.inodeStart
    ensures |bits| == (sb.inodeStart - sb.bitmapStart) * BLOCK
  {
    Marked(Zeros((sb.inodeStart - sb.bitmapStart) * BLOCK), sb.dataStart)
  }

  /** The buffer after a format: superblock, bitmap and root inode over zeros. */
  function Formatted(size: nat, sb: Superblock): (image: Bytes)
    requires Laid(size, sb)
    ensures |image| == size
  {
    var headed := Written(Zeros(size), 0, HeadBlock(sb));
    var mapped := Written(headed, sb.bitmapStart * BLOCK, BitmapBytes(sb));
    Written(mapped, sb.inodeStart * BLOCK, RootSlot())
  }

  method Fill(bytes: array<Byte>)
    modifies bytes
    ensures bytes[..] == Zeros(bytes.Length)
  {
    for i := 0 to bytes.Length
      invariant forall k | 0 <= k < i :: bytes[k] == 0
    {
      bytes[i] := 0;
    }
  }

  /** Writes `value` at `at`, if it fits. */
  method Put(bytes: array<Byte>, at: nat, value: Bytes) returns (ok: bool)
    modifies bytes
    ensures ok <==> at + |value| <= bytes.Length
    ensures bytes[..] == if ok then Written(old(bytes[..]), at, value) else old(bytes[..])
  {
    if at + |value| > bytes.Length {
      return false;
    }
    for i := 0 to |value|
      invariant bytes[..at] == old(bytes[..at])
      invariant bytes[at..at + i] == value[..i]
      invariant bytes[at + i..] == old(bytes[at + i..])
    {
      bytes[at + i] := value[i];
    }
    assert bytes[..] == bytes[..at] + bytes[at..at + |value|] + bytes[at + |value|..];
    return true;
  }

  /** Marks everything below the first data block in use, in the map inside the buffer. */
  method MarkMetadata(bytes: array<Byte>, sb: Superblock)
    requires sb.bitmapStart <= sb.inodeStart && sb.inodeStart * BLOCK <= bytes.Length
    requires sb.blocks <= 8 * ((sb.inodeStart - sb.bitmapStart) * BLOCK)
    modifies bytes
    ensures var start, end := sb.bitmapStart * BLOCK, sb.inodeStart * BLOCK;
      bytes[..] == Written(old(bytes[..]), start, Marked(old(bytes[..])[start..end], sb.dataStart))
  {
    hide SetIn;
    var start, end := sb.bitmapStart * BLOCK, sb.inodeStart * BLOCK;
    var found := Bitmap.Of(bytes[..], sb);
    assert found.Ok?;
    var bitmap := found.value;
    for block := 0 to sb.dataStart
      invariant bitmap.bytes == Marked(old(bytes[..])[start..end], block)
      modifies bitmap
    {
      bitmap.Set(block, true);
    }
    var mapped := Put(bytes, start, bitmap.bytes);
  }

  /** Superblock, bitmap and root inode, over a zeroed buffer. */
  method LayMetadata(bytes: array<Byte>, sb: Superblock)
    requires Laid(bytes.Length, sb) && bytes[..] == Zeros(bytes.Length)
    modifies bytes
    ensures bytes[..] == Formatted(bytes.Length, sb)
  {
    hide Zeros, Marked, HeadBlock, RootSlot, Written, Wordsized;
    var headed := Put(bytes, 0, HeadBlock(sb));
    RegionIsZero(bytes.Length, sb);
    MarkMetadata(bytes, sb);
    var rooted := Put(bytes, sb.inodeStart * BLOCK, RootSlot());
  }

  /** Lays out a filesystem of `blocks` blocks over a buffer that need only hold its metadata. */
  method FormatSized(bytes: array<Byte>, inodes: nat, blocks: nat) returns (r: Result<Superblock, FsError>)
    requires Countable(inodes, blocks)
    modifies bytes
    ensures r == if Formattable(bytes.Length, inodes, blocks) then Ok(Layout(inodes, blocks)) else Err(OutOfRange)
    ensures r.Ok? <==> exists sb | Roomy(sb, inodes, blocks) :: sb.dataStart * BLOCK <= bytes.Length
    ensures r.Ok? ==> Roomy(r.value, inodes, blocks) && forall sb | Roomy(sb, inodes, blocks) :: r.value.dataStart <= sb.dataStart
    ensures r.Ok? ==> Laid(bytes.Length, r.value) && bytes[..] == Formatted(bytes.Length, r.value)
    ensures r.Err? ==> bytes[..] == if blocks < 4 + JOURNAL_BLOCKS || inodes == 0 then old(bytes[..]) else Zeros(bytes.Length)
  {
    hide Formatted, Wordsized;
    forall sb | Roomy(sb, inodes, blocks)
      ensures 4 + JOURNAL_BLOCKS <= blocks && Roomy(Layout(inodes, blocks), inodes, blocks) && Layout(inodes, blocks).dataStart <= sb.dataStart
    {
      LayoutIsLeast(inodes, blocks, sb);
    }
    if blocks < 4 + JOURNAL_BLOCKS || inodes == 0 {
      return Err(OutOfRange);
    }
    Fill(bytes);
    var sb := Layout(inodes, blocks);
    if sb.dataStart >= blocks || bytes.Length / BLOCK < sb.dataStart {
      return Err(OutOfRange);
    }
    LayoutIsLaid(bytes.Length, inodes, blocks);
    assert Roomy(sb, inodes, blocks);
    LayMetadata(bytes, sb);
    return Ok(sb);
  }

  lemma RegionIsZero(size: nat, sb: Superblock)
    requires Laid(size, sb)
    ensures Written(Zeros(size), 0, HeadBlock(sb))[sb.bitmapStart * BLOCK..sb.inodeStart * BLOCK]
            == Zeros((sb.inodeStart - sb.bitmapStart) * BLOCK)
  {
  }

  /** Block `b` of a buffer. */
  function BlockOf(image: Bytes, b: nat): Block
    requires (b + 1) * BLOCK <= |image|
  {
    image[b * BLOCK..(b + 1) * BLOCK]
  }

  /** A device whose metadata blocks are the formatted buffer's; its data blocks may hold anything. */
  ghost predicate Carries(d: Disk, size: nat, sb: Superblock) {
    && Laid(size, sb) && sb.blocks <= |d|
    && forall b: nat | b < sb.dataStart :: d[b] == BlockOf(Formatted(size, sb), b)
  }

  lemma CarriesLog(d: Disk, size: nat, sb: Superblock)
    requires Carries(d, size, sb)
    ensures sb.journalBlocks == JOURNAL_BLOCKS
  {
  }

  /** The device mounts as `sb`, its log is empty, and recovery has nothing to do. */
  ghost predicate Clean(d: Disk, sb: Superblock) {
    && Sane(sb, |d|) && ReadHead(d[0], |d|) == Ok(sb) && Recovery.Recovered(sb, d) == Ok(d)
    && forall b: nat | Recovery.InLog(sb, b) :: d[b] == ZERO
  }

  /** A freshly formatted device reads as its layout, and recovery finds nothing to do on it. */
  lemma FormattedMounts(size: nat, sb: Superblock, d: Disk)
    requires Carries(d, size, sb)
    ensures Clean(d, sb)
  {
    hide ReadHead, Formatted, BlockOf, HeadBlock;
    FormattedHead(size, sb);
    SuperblockRoundTrip(sb, [], |d|);
    assert HeadBlock(sb) + [] == HeadBlock(sb);
    forall b: nat | sb.journalStart <= b < sb.dataStart
      ensures d[b] == ZERO
    {
      FormattedAfter(size, sb, b);
    }
    Recovery.ZeroAnnouncesNothing();
  }

  lemma FormattedHead(size: nat, sb: Superblock)
    requires Laid(size, sb)
    ensures BlockOf(Formatted(size, sb), 0) == HeadBlock(sb)
  {
    hide HeadBlock, BitmapBytes, RootSlot, Zeros;
  }

  /** Nothing at or after the journal is written. */
  lemma FormattedAfter(size: nat, sb: Superblock, b: nat)
    requires Laid(size, sb) && sb.journalStart <= b && (b + 1) * BLOCK <= size
    ensures BlockOf(Formatted(size, sb), b) == ZERO
  {
    hide HeadBlock, BitmapBytes, RootSlot;
  }

  /** The bytes of the map inside an image. */
  function MapOf(image: Bytes, sb: Superblock): Bytes
    requires Laid(|image|, sb)
  {
    image[sb.bitmapStart * BLOCK..sb.inodeStart * BLOCK]
  }

  /** In a fresh map exactly the metadata is in use. */
  lemma FormattedBitmap(size: nat, sb: Superblock, b: nat)
    requires Laid(size, sb)
    ensures UsedIn(MapOf(Formatted(size, sb), sb), b) <==> b < sb.dataStart
  {
    hide Formatted, MapOf, UsedIn, BitmapBytes;
    FormattedMap(size, sb);
    BitmapBytesAre(sb, b);
  }

  lemma BitmapBytesAre(sb: Superblock, b: nat)
    requires sb.bitmapStart <= sb.inodeStart && sb.dataStart <= 8 * ((sb.inodeStart - sb.bitmapStart) * BLOCK)
    ensures UsedIn(BitmapBytes(sb), b) <==> b < sb.dataStart
  {
    hide UsedIn, Marked;
    var n := (sb.inodeStart - sb.bitmapStart) * BLOCK;
    MarkedIs(Zeros(n), sb.dataStart);
    ZerosAreFree(n, b);
  }

  lemma FormattedMap(size: nat, sb: Superblock)
    requires Laid(size, sb)
    ensures MapOf(Formatted(size, sb), sb) == BitmapBytes(sb)
  {
    hide HeadBlock, BitmapBytes, RootSlot, Zeros;
  }

  /** The bytes of inode `i` inside an image. */
  function SlotOf(image: Bytes, sb: Superblock, i: nat): (slot: Bytes)
    requires Laid(|image|, sb) && i < sb.inodes
    ensures |slot| == INODE
  {
    image[sb.inodeStart * BLOCK + i * INODE..sb.inodeStart * BLOCK + (i + 1) * INODE]
  }

  /** In a fresh table the root is a directory and every other inode is free. */
  lemma FormattedInodes(size: nat, sb: Superblock, i: nat)
    requires Laid(size, sb) && i < sb.inodes
    ensures Decode(SlotOf(Formatted(size, sb), sb, i)) == Ok(if i == sb.root then ROOT else FREE)
  {
    FormattedSlot(size, sb, i);
    hide Formatted, SlotOf, Decode, Encode;
    if i == 0 {
      RootDecodes();
    } else {
      UnwrittenIsFree();
    }
  }

  lemma FormattedSlot(size: nat, sb: Superblock, i: nat)
    requires Laid(size, sb) && i < sb.inodes
    ensures SlotOf(Formatted(size, sb), sb, i) == if i == 0 then RootSlot() else Zeros(INODE)
  {
    hide HeadBlock, BitmapBytes, RootSlot;
  }

  /** Where an inode is looked for on a device is where its slot is in the image. */
  lemma SlotIsAt(image: Bytes, sb: Superblock, i: nat)
    requires Laid(|image|, sb) && i < sb.inodes && InodeAt(sb, i).Ok?
    ensures var (block, at) := InodeAt(sb, i).value;
            at + INODE <= BLOCK && (block + 1) * BLOCK <= |image| && BlockOf(image, block)[at..at + INODE] == SlotOf(image, sb, i)
  {
    var byte := sb.inodeStart * BLOCK + i * INODE;
    var block, at := sb.inodeStart + i / 64, i % 64 * 64;
    assert InodeAt(sb, i).value == (block, at) && block * BLOCK + at == byte;
    assert image[block * BLOCK..(block + 1) * BLOCK][at..at + INODE] == image[byte..byte + INODE];
  }
}
