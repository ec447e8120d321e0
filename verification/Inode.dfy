/** Inodes, the superblock as it is written, and where in the table an inode lies. */
module Inodes {
  import opened Words
  import opened Blocks
  import opened Superblocks
  import opened Records
  import Checksum

  const INODE_COVERED: nat := 60

  datatype Kind = Free | File | Directory

  function ToBits(kind: Kind): nat {
    match kind
    case Free => 0
    case File => 1
    case Directory => 2
  }

  /** Anything unknown is `Free`, the reading that cannot hand out a file. */
  function FromBits(bits: nat): Kind {
    if bits == 1 then File else if bits == 2 then Directory else Free
  }

  datatype Inode = Inode(kind: Kind, links: nat, generation: nat, size: nat, direct: seq<nat>, indirect: nat)

  const DIRECT: nat := 10

  /** Each field fits the word it is stored in. */
  predicate Stored(inode: Inode) {
    && inode.links < U16 && inode.generation < U32 && inode.size < U64 && inode.indirect < U32
    && |inode.direct| == DIRECT && forall i | 0 <= i < DIRECT :: inode.direct[i] < U32
  }

  const FREE: Inode := Inode(Free, 0, 0, 0, [0, 0, 0, 0, 0, 0, 0, 0, 0, 0], 0)

  /** The numbers of an inode and where each goes; direct block `i` is field `4 + i`. */
  function InodeFields(inode: Inode): (fields: seq<Field>)
    requires |inode.direct| == DIRECT
    ensures |fields| == 15
  {
    [Field(0, 2, ToBits(inode.kind)), Field(2, 2, inode.links), Field(4, 4, inode.generation), Field(8, 8, inode.size)]
    + seq(DIRECT, i requires 0 <= i < DIRECT => Field(16 + 4 * i, 4, inode.direct[i]))
    + [Field(56, 4, inode.indirect)]
  }

  lemma InodeFieldsFit(inode: Inode)
    requires Stored(inode)
    ensures Fits(InodeFields(inode), INODE_COVERED) && Disjoint(InodeFields(inode))
  {
    Spans();
  }

  function Encode(inode: Inode): (slot: Bytes)
    requires Stored(inode)
    ensures |slot| == INODE
  {
    InodeFieldsFit(inode);
    Sealed(INODE, InodeFields(inode), INODE_COVERED)
  }

  function Decode(slot: Bytes): (r: Result<Inode, FsError>)
    ensures r.Ok? ==> |r.value.direct| == DIRECT
  {
    if |slot| < INODE then Err(OutOfRange)
    else
      var slot := slot[..INODE];
      var stored := At(slot, INODE_COVERED, 4).value;
      if stored == 0 then Ok(FREE)
      else if stored != Checksum.Of(slot[..INODE_COVERED]) then Err(NotAFilesystem)
      else
        Ok(Inode(FromBits(At(slot, 0, 2).value), At(slot, 2, 2).value, At(slot, 4, 4).value, At(slot, 8, 8).value,
                 seq(DIRECT, i requires 0 <= i < DIRECT => At(slot, 16 + 4 * i, 4).value), At(slot, 56, 4).value))
  }

  /** What was encoded decodes to itself, and never reads as a slot nobody wrote. */
  lemma InodeRoundTrip(inode: Inode)
    requires Stored(inode)
    ensures Decode(Encode(inode)) == Ok(inode)
    ensures At(Encode(inode), INODE_COVERED, 4) != Some(0)
  {
    var fields, slot := InodeFields(inode), Encode(inode);
    InodeFieldsFit(inode);
    assert slot[..INODE] == slot;
    SealedChecks(INODE, fields, INODE_COVERED);
    forall k: nat | k < 15
      ensures At(slot, fields[k].at, fields[k].width) == Some(fields[k].value)
    {
      SealedReads(INODE, fields, INODE_COVERED, k);
    }
    ReadsAre(inode, slot);
  }

  /** Bytes whose checksum and fields read as an inode's decode to it. */
  lemma ReadsAre(inode: Inode, slot: Bytes)
    requires Stored(inode) && |slot| == INODE
    requires At(slot, INODE_COVERED, 4) == Some(Checksum.Of(slot[..INODE_COVERED]))
    requires forall k: nat | k < 15 ::
               At(slot, InodeFields(inode)[k].at, InodeFields(inode)[k].width) == Some(InodeFields(inode)[k].value)
    ensures Decode(slot) == Ok(inode)
    ensures At(slot, INODE_COVERED, 4) != Some(0)
  {
    hide At, Checksum.Fold;
    var f := InodeFields(inode);
    assert slot[..INODE] == slot;
    assert f[0] == Field(0, 2, ToBits(inode.kind)) && f[1] == Field(2, 2, inode.links);
    assert f[2] == Field(4, 4, inode.generation) && f[3] == Field(8, 8, inode.size) && f[14] == Field(56, 4, inode.indirect);
    forall i: nat | i < DIRECT
      ensures At(slot, 16 + 4 * i, 4) == Some(inode.direct[i])
    {
      assert f[4 + i] == Field(16 + 4 * i, 4, inode.direct[i]);
    }
    assert Decode(slot).Ok? && Decode(slot).value.direct == inode.direct;
  }

  /** A slot nobody wrote is a free inode. */
  lemma UnwrittenIsFree()
    ensures Decode(Zeros(INODE)) == Ok(FREE)
  {
    assert Zeros(INODE)[..INODE][60..64] == [0, 0, 0, 0];
    assert FromLe([0, 0, 0, 0]) == 0 by {
      assert [0, 0, 0, 0][1..] == [0, 0, 0];
      assert [0, 0, 0][1..] == [0, 0];
      assert [0, 0][1..] == [0];
      assert [0][1..] == [];
    }
  }

  function SuperblockFields(sb: Superblock): (fields: seq<Field>)
    ensures |fields| == 11
  {
    [Field(0, 8, MAGIC), Field(8, 4, VERSION), Field(12, 4, BLOCK), Field(16, 8, sb.blocks), Field(24, 8, sb.inodes),
     Field(32, 8, sb.bitmapStart), Field(40, 8, sb.inodeStart), Field(48, 8, sb.journalStart),
     Field(56, 8, sb.journalBlocks), Field(64, 8, sb.dataStart), Field(72, 4, sb.root)]
  }

  lemma SuperblockFieldsFit(sb: Superblock)
    requires Wordsized(sb)
    ensures Fits(SuperblockFields(sb), COVERED) && Disjoint(SuperblockFields(sb))
  {
    Spans();
  }

  /** The first block of a filesystem, as the superblock writes it. */
  function HeadBlock(sb: Superblock): (head: Block)
    requires Wordsized(sb)
  {
    SuperblockFieldsFit(sb);
    Sealed(BLOCK, SuperblockFields(sb), COVERED)
  }

  /** A written superblock reads back as itself exactly when it describes a filesystem that can exist. */
  lemma SuperblockRoundTrip(sb: Superblock, rest: Bytes, device: nat)
    requires Wordsized(sb)
    ensures ReadHead(HeadBlock(sb) + rest, device) == if Sane(sb, device) then Ok(sb) else Err(OutOfRange)
  {
    var head := HeadBlock(sb);
    assert (head + rest)[..BLOCK] == head;
    HeadReads(sb);
    hide At, Checksum.Of, HeadBlock;
    FieldsAre(sb, head);
  }

  lemma HeadReads(sb: Superblock)
    requires Wordsized(sb)
    ensures At(HeadBlock(sb), COVERED, 4) == Some(Checksum.Of(HeadBlock(sb)[..COVERED]))
    ensures forall k: nat | k < 11 ::
              At(HeadBlock(sb), SuperblockFields(sb)[k].at, SuperblockFields(sb)[k].width) == Some(SuperblockFields(sb)[k].value)
  {
    var fields := SuperblockFields(sb);
    SuperblockFieldsFit(sb);
    SealedChecks(BLOCK, fields, COVERED);
    forall k: nat | k < 11
      ensures At(HeadBlock(sb), fields[k].at, fields[k].width) == Some(fields[k].value)
    {
      SealedReads(BLOCK, fields, COVERED, k);
    }
  }

  lemma FieldsAre(sb: Superblock, head: Block)
    requires forall k: nat | k < 11 ::
               At(head, SuperblockFields(sb)[k].at, SuperblockFields(sb)[k].width) == Some(SuperblockFields(sb)[k].value)
    ensures At(head, 0, 8) == Some(MAGIC) && At(head, 8, 4) == Some(VERSION) && At(head, 12, 4) == Some(BLOCK)
    ensures Fields(head) == sb
  {
    hide At;
    var f := SuperblockFields(sb);
    assert f[0] == Field(0, 8, MAGIC) && f[1] == Field(8, 4, VERSION) && f[2] == Field(12, 4, BLOCK);
    assert f[3] == Field(16, 8, sb.blocks) && f[4] == Field(24, 8, sb.inodes) && f[5] == Field(32, 8, sb.bitmapStart);
    assert f[6] == Field(40, 8, sb.inodeStart) && f[7] == Field(48, 8, sb.journalStart);
    assert f[8] == Field(56, 8, sb.journalBlocks) && f[9] == Field(64, 8, sb.dataStart) && f[10] == Field(72, 4, sb.root);
  }

  lemma PrefixOfPrefix(x: Bytes, m: nat, n: nat)
    requires m <= n <= |x|
    ensures x[..n][..m] == x[..m]
  {
  }

  /** Only the covered bytes and their checksum are looked at. */
  lemma SameHead(x: Bytes, y: Bytes, device: nat)
    requires |x| >= BLOCK && |y| >= BLOCK && x[..COVERED + 4] == y[..COVERED + 4]
    ensures ReadHead(x, device) == ReadHead(y, device)
  {
    var u: Block, v: Block := x[..BLOCK], y[..BLOCK];
    PrefixOfPrefix(x, COVERED + 4, BLOCK);
    PrefixOfPrefix(y, COVERED + 4, BLOCK);
    PrefixOfPrefix(u, COVERED, COVERED + 4);
    PrefixOfPrefix(v, COVERED, COVERED + 4);
    forall at: nat, width: nat | at + width <= COVERED + 4
      ensures At(u, at, width) == At(v, at, width)
    {
      assert u[at..at + width] == u[..COVERED + 4][at..at + width];
      assert v[at..at + width] == v[..COVERED + 4][at..at + width];
    }
    hide At, Checksum.Of;
  }

  lemma FieldsRead(head: Block, sb: Superblock)
    requires Fields(head) == sb
    requires At(head, 0, 8) == Some(MAGIC) && At(head, 8, 4) == Some(VERSION) && At(head, 12, 4) == Some(BLOCK)
    ensures forall k | 0 <= k < 11 ::
              At(head, SuperblockFields(sb)[k].at, SuperblockFields(sb)[k].width) == Some(SuperblockFields(sb)[k].value)
  {
    hide At;
  }

  lemma FieldsTile(sb: Superblock)
    ensures Tiled(SuperblockFields(sb)) && End(SuperblockFields(sb)) == COVERED
  {
  }

  /** A superblock's fields and its checksum fill its covered bytes and the four after them. */
  lemma ReadIsWritten(head: Block, sb: Superblock)
    requires Wordsized(sb) && Fields(head) == sb
    requires At(head, 0, 8) == Some(MAGIC) && At(head, 8, 4) == Some(VERSION) && At(head, 12, 4) == Some(BLOCK)
    requires At(head, COVERED, 4) == Some(Checksum.Of(head[..COVERED]))
    ensures head[..COVERED + 4] == HeadBlock(sb)[..COVERED + 4]
  {
    HeadReads(sb);
    FieldsRead(head, sb);
    FieldsTile(sb);
    hide At, HeadBlock, Fields, Checksum.Of, SuperblockFields, Tiled, End;
    TiledTells(head, HeadBlock(sb), SuperblockFields(sb));
    SealTells(head, HeadBlock(sb));
  }

  lemma SealTells(x: Block, y: Block)
    requires x[..COVERED] == y[..COVERED] && At(x, COVERED, 4) == At(y, COVERED, 4)
    ensures x[..COVERED + 4] == y[..COVERED + 4]
  {
    LeTells(x[COVERED..COVERED + 4], y[COVERED..COVERED + 4]);
    assert x[..COVERED + 4] == x[..COVERED] + x[COVERED..COVERED + 4];
    assert y[..COVERED + 4] == y[..COVERED] + y[COVERED..COVERED + 4];
  }

  /** The bytes accepted as a superblock are those writing it makes, as far as its checksum reaches, when it can exist. */
  lemma ReadsExactly(head: Bytes, sb: Superblock, device: nat)
    ensures ReadHead(head, device) == Ok(sb)
            <==> |head| >= BLOCK && Wordsized(sb) && Sane(sb, device) && head[..COVERED + 4] == HeadBlock(sb)[..COVERED + 4]
  {
    hide HeadBlock, ReadHead, Sane, Wordsized;
    if |head| >= BLOCK && Wordsized(sb) {
      SuperblockRoundTrip(sb, [], device);
      assert HeadBlock(sb) + [] == HeadBlock(sb);
      if head[..COVERED + 4] == HeadBlock(sb)[..COVERED + 4] {
        SameHead(head, HeadBlock(sb), device);
      }
    }
    if ReadHead(head, device) == Ok(sb) {
      AcceptedIsWritten(head, sb, device);
    }
  }

  lemma AcceptedIsWritten(head: Bytes, sb: Superblock, device: nat)
    requires ReadHead(head, device) == Ok(sb)
    ensures |head| >= BLOCK && Sane(sb, device) && Wordsized(sb) && head[..COVERED + 4] == HeadBlock(sb)[..COVERED + 4]
  {
    Spans();
    hide At, Checksum.Of, HeadBlock;
    PrefixOfPrefix(head, COVERED + 4, BLOCK);
    ReadIsWritten(head[..BLOCK], sb);
  }

  /** Which block holds inode `index`, and where in it. */
  function InodeAt(sb: Superblock, index: nat): (r: Result<(nat, nat), FsError>) {
    var byte := sb.inodeStart * BLOCK + index * INODE;
    if index >= sb.inodes || byte >= U64 || byte / BLOCK >= U32 then Err(OutOfRange)
    else Ok((byte / BLOCK, byte % BLOCK))
  }

  /** An inode of the count is looked for at its place in the table, counted in bytes, if a block number has room for it. */
  lemma InodeAtExactly(sb: Superblock, index: nat, block: nat, at: nat)
    ensures InodeAt(sb, index) == Ok((block, at))
            <==> index < sb.inodes && block < U32 && at < BLOCK && block * BLOCK + at == sb.inodeStart * BLOCK + index * INODE
    ensures InodeAt(sb, index).Err? <==> index >= sb.inodes || U32 * BLOCK <= sb.inodeStart * BLOCK + index * INODE
  {
  }

  /** An inode found lies whole inside one block, at its own place, and no other inode's. */
  lemma InodesApart(sb: Superblock, i: nat, j: nat)
    requires InodeAt(sb, i).Ok? && InodeAt(sb, j).Ok?
    ensures InodeAt(sb, i).value.1 + INODE <= BLOCK && sb.inodeStart <= InodeAt(sb, i).value.0
    ensures i != j ==> || InodeAt(sb, i).value.0 != InodeAt(sb, j).value.0
                       || InodeAt(sb, i).value.1 + INODE <= InodeAt(sb, j).value.1
                       || InodeAt(sb, j).value.1 + INODE <= InodeAt(sb, i).value.1
  {
    assert InodeAt(sb, i).value == (sb.inodeStart + i / 64, i % 64 * 64);
    assert InodeAt(sb, j).value == (sb.inodeStart + j / 64, j % 64 * 64);
  }

  /** Every inode has its place inside the table exactly when the table is long enough for the count. */
  lemma TableHolds(sb: Superblock, device: nat)
    requires Sane(sb, device) && sb.journalStart <= U32
    ensures (forall i: nat | i < sb.inodes :: InodeAt(sb, i).Ok? && InodeAt(sb, i).value.0 < sb.journalStart)
            <==> sb.inodes * INODE <= (sb.journalStart - sb.inodeStart) * BLOCK
  {
    hide InodeAt;
    var last: nat := sb.inodes - 1;
    forall i: nat | i < sb.inodes
      ensures InodeAt(sb, i).Ok? && InodeAt(sb, i).value.0 < sb.journalStart
              <==> (i + 1) * INODE <= (sb.journalStart - sb.inodeStart) * BLOCK
    {
      SlotInTable(sb, i);
    }
    assert InodeAt(sb, last).Ok? && InodeAt(sb, last).value.0 < sb.journalStart
           <==> (last + 1) * INODE <= (sb.journalStart - sb.inodeStart) * BLOCK;
  }

  lemma SlotInTable(sb: Superblock, i: nat)
    requires sb.inodeStart <= sb.journalStart <= U32 && i < sb.inodes
    ensures InodeAt(sb, i).Ok? && InodeAt(sb, i).value.0 < sb.journalStart
            <==> (i + 1) * INODE <= (sb.journalStart - sb.inodeStart) * BLOCK
  {
    assert (sb.inodeStart * BLOCK + i * INODE) / BLOCK == sb.inodeStart + i / 64;
  }
}
