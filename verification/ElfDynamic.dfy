/** Dynamic tables and relocations as they are written down, and that the walk reads them so. */
module ElfDynamic {
  import opened Words
  import opened Packing
  import opened Elf
  import opened ElfTheorems
  import opened ElfRelocation

  // ----- the dynamic table

  /** Tags and values, eight bytes each. */
  function PairRows(pairs: seq<(nat, nat)>): (rows: seq<seq<Item>>)
    ensures |rows| == |pairs|
  {
    seq(|pairs|, i requires 0 <= i < |pairs| => [Item(8, pairs[i].0), Item(8, pairs[i].1)])
  }

  lemma PairSizes(pairs: seq<(nat, nat)>)
    ensures Even(PairRows(pairs), 16) && |Stacked(PairRows(pairs))| == 16 * |pairs|
    ensures forall i | 0 <= i < |pairs| :: Size(PairRows(pairs)[i][..0]) == 0 && Size(PairRows(pairs)[i][..1]) == 8
  {
    hide Stacked, Packed;
    var rows := PairRows(pairs);
    forall i | 0 <= i < |rows|
      ensures Size(rows[i]) == 16 && Size(rows[i][..0]) == 0 && Size(rows[i][..1]) == 8
    {
      SizeGrows(rows[i], 0);
      SizeGrows(rows[i], 1);
      assert rows[i][..2] == rows[i] && rows[i][..0] == [];
    }
    StackedSize(rows, 16);
  }

  /** The table of `size` bytes at `offset` spells `pairs`: none has the tag zero, and one that has it or the table's end comes next. */
  ghost predicate Spells(bytes: Bytes, offset: nat, size: nat, pairs: seq<(nat, nat)>) {
    && (forall i | 0 <= i < |pairs| :: 0 < pairs[i].0 < U64 && pairs[i].1 < U64)
    && |Stacked(PairRows(pairs))| <= |bytes| - offset
    && bytes[offset..offset + |Stacked(PairRows(pairs))|] == Stacked(PairRows(pairs))
    && var end := offset + |Stacked(PairRows(pairs))|;
    || 16 * |pairs| <= size < 16 * |pairs| + 16
    || (end + 16 <= |bytes| && end + 16 <= offset + size && bytes[end..end + 8] == Zeros(8))
  }

  lemma PairReads(bytes: Bytes, offset: nat, size: nat, pairs: seq<(nat, nat)>, i: nat)
    requires Spells(bytes, offset, size, pairs) && i < |pairs|
    ensures offset + 16 * i + 16 <= |bytes|
    ensures Read(bytes, offset + 16 * i, 8) == pairs[i].0 > 0 && Read(bytes, offset + 16 * i + 8, 8) == pairs[i].1
  {
    hide Stacked, Packed, At;
    Spans();
    var rows := PairRows(pairs);
    PairSizes(pairs);
    StackedReads(bytes, offset, rows, 16, i, 0);
    StackedReads(bytes, offset, rows, 16, i, 1);
  }

  /** The value the last pair with this tag gives, if there is one. */
  ghost predicate Latest(pairs: seq<(nat, nat)>, tag: nat, v: Option<nat>) {
    match v
    case None => forall i | 0 <= i < |pairs| :: pairs[i].0 != tag
    case Some(n) => exists i | 0 <= i < |pairs| :: pairs[i] == (tag, n) && forall j | i < j < |pairs| :: pairs[j].0 != tag
  }

  lemma {:induction false} TaggedIsLatest(bytes: Bytes, offset: nat, size: nat, pairs: seq<(nat, nat)>, n: nat, tag: nat)
    requires Spells(bytes, offset, size, pairs) && n <= |pairs| && (n > 0 ==> offset + 16 * n <= |bytes|)
    ensures Latest(pairs[..n], tag, Tagged(bytes, offset, n, tag))
  {
    hide Spells, Read;
    if n > 0 {
      PairReads(bytes, offset, size, pairs, n - 1);
      TaggedIsLatest(bytes, offset, size, pairs, n - 1, tag);
      LatestMore(pairs[..n - 1], pairs[n - 1], tag, Tagged(bytes, offset, n - 1, tag));
      assert pairs[..n] == pairs[..n - 1] + [pairs[n - 1]];
    }
  }

  lemma LatestMore(pairs: seq<(nat, nat)>, pair: (nat, nat), tag: nat, v: Option<nat>)
    requires Latest(pairs, tag, v)
    ensures Latest(pairs + [pair], tag, if pair.0 == tag then Some(pair.1) else v)
  {
    var more := pairs + [pair];
    if pair.0 == tag {
      assert more[|pairs|] == pair;
    } else if v.Some? {
      var i :| 0 <= i < |pairs| && pairs[i] == (tag, v.value) && forall j | i < j < |pairs| :: pairs[j].0 != tag;
      assert more[i] == (tag, v.value);
    }
  }

  lemma LatestIsOne(pairs: seq<(nat, nat)>, tag: nat, v: Option<nat>, w: Option<nat>)
    requires Latest(pairs, tag, v) && Latest(pairs, tag, w)
    ensures v == w
  {
  }

  lemma {:induction false} EndsThere(bytes: Bytes, offset: nat, size: nat, pairs: seq<(nat, nat)>, at: nat)
    requires Spells(bytes, offset, size, pairs) && at <= |pairs| && offset + 16 * at <= |bytes|
    ensures |pairs| <= size / 16 && Terminator(bytes, offset, size / 16, at) == Some(|pairs|)
    decreases |pairs| - at
  {
    hide Stacked, Packed, Read, PairRows;
    PairSizes(pairs);
    if at < |pairs| {
      PairReads(bytes, offset, size, pairs, at);
      EndsThere(bytes, offset, size, pairs, at + 1);
    } else if at < size / 16 {
      ZeroReads(bytes, offset + 16 * at);
    }
  }

  lemma ZeroReads(bytes: Bytes, at: nat)
    requires at + 8 <= |bytes| && bytes[at..at + 8] == Zeros(8)
    ensures Read(bytes, at, 8) == 0
  {
    ZeroIsZero(8);
  }

  lemma {:induction false} ZeroIsZero(n: nat)
    ensures FromLe(Zeros(n)) == 0
  {
    if n > 0 {
      ZeroIsZero(n - 1);
      assert Zeros(n)[1..] == Zeros(n - 1);
    }
  }

  // ----- where the table is in the file

  /** The file bytes of the segment hold the addresses from `address` on. */
  ghost predicate InFile(s: Segment, address: nat, length: nat) {
    s.address <= address && address + length <= s.address + s.fileSize
  }

  ghost predicate Wraps(s: Segment) {
    s.address + s.fileSize >= U64
  }

  /**
   A range is found in the first segment whose file bytes hold it, and is not found
   exactly if there is none, or one whose file bytes wrap is met before.
   */
  lemma {:induction false} FileOffsetExactly(segments: seq<Segment>, address: nat, length: nat, i: nat)
    requires i <= |segments|
    ensures match FileOffsetFrom(segments, address, length, i)
      case None => forall k | i <= k < |segments| && InFile(segments[k], address, length) :: exists j | i <= j <= k :: Wraps(segments[j])
      case Some(at) =>
        exists k | i <= k < |segments| ::
          && InFile(segments[k], address, length) && at - segments[k].fileOffset == address - segments[k].address
          && (forall j | i <= j < k :: !InFile(segments[j], address, length)) && forall j | i <= j <= k :: !Wraps(segments[j])
    decreases |segments| - i
  {
    hide InFile;
    if i < |segments| {
      FileOffsetExactly(segments, address, length, i + 1);
      InFileMeans(segments[i], address, length);
      if address + length >= U64 {
        forall k | i <= k < |segments| && InFile(segments[k], address, length)
          ensures Wraps(segments[k])
        {
          InFileMeans(segments[k], address, length);
        }
      }
    }
  }

  lemma InFileMeans(s: Segment, address: nat, length: nat)
    ensures InFile(s, address, length) <==> s.address <= address && address + length <= s.address + s.fileSize
  {
  }

  // ----- the relocations

  /** A relocation: where, of which kind, against which symbol, and what is added. */
  datatype Rela = Rela(offset: nat, kind: nat, symbol: nat, addend: int)

  ghost predicate Encodable(e: Rela) {
    e.offset < U64 && e.kind < U32 && e.symbol < U32 && -(U64 / 2) <= e.addend < U64 / 2
  }

  /** Three words: the offset, the symbol above the kind, and the addend in two's complement. */
  function RelaRow(e: Rela): (row: seq<Item>)
    requires Encodable(e)
    ensures |row| == 3
  {
    [Item(8, e.offset), Item(8, e.symbol * U32 + e.kind), Item(8, if e.addend < 0 then e.addend + U64 else e.addend)]
  }

  function RelaRows(entries: seq<Rela>): (rows: seq<seq<Item>>)
    requires forall i | 0 <= i < |entries| :: Encodable(entries[i])
    ensures |rows| == |entries|
  {
    seq(|entries|, i requires 0 <= i < |entries| => RelaRow(entries[i]))
  }

  lemma RelaSizes(entries: seq<Rela>)
    requires forall i | 0 <= i < |entries| :: Encodable(entries[i])
    ensures Even(RelaRows(entries), 24) && |Stacked(RelaRows(entries))| == 24 * |entries|
    ensures forall i | 0 <= i < |entries| ::
              Size(RelaRow(entries[i])[..0]) == 0 && Size(RelaRow(entries[i])[..1]) == 8 && Size(RelaRow(entries[i])[..2]) == 16
  {
    hide Stacked, Packed;
    var rows := RelaRows(entries);
    forall i | 0 <= i < |rows|
      ensures Size(rows[i]) == 24 && Size(rows[i][..0]) == 0 && Size(rows[i][..1]) == 8 && Size(rows[i][..2]) == 16
    {
      SizeGrows(rows[i], 0);
      SizeGrows(rows[i], 1);
      SizeGrows(rows[i], 2);
      assert rows[i][..3] == rows[i] && rows[i][..0] == [];
    }
    StackedSize(rows, 24);
  }

  /** The table at `table` is these relocations. */
  ghost predicate Holding(bytes: Bytes, table: nat, entries: seq<Rela>) {
    && (forall i | 0 <= i < |entries| :: Encodable(entries[i]))
    && |Stacked(RelaRows(entries))| <= |bytes| - table
    && bytes[table..table + |Stacked(RelaRows(entries))|] == Stacked(RelaRows(entries))
  }

  /** An entry is read as it was written, and is applied exactly if it is relative and writes inside one segment. */
  lemma EntryReads(bytes: Bytes, table: nat, entries: seq<Rela>, segments: seq<Segment>, i: nat)
    requires Holding(bytes, table, entries) && i < |entries|
    ensures table + RELA * (i + 1) <= |bytes| && RelaAt(bytes, table, i) == (entries[i].offset, entries[i].addend)
    ensures Good(bytes, segments, table, i) <==> entries[i].kind == 8 && Eight(segments, entries[i].offset)
  {
    hide Stacked, Packed, At, Eight;
    Spans();
    var rows := RelaRows(entries);
    RelaSizes(entries);
    StackedReads(bytes, table, rows, 24, i, 0);
    StackedReads(bytes, table, rows, 24, i, 1);
    StackedReads(bytes, table, rows, 24, i, 2);
  }

  // ----- the whole walk

  /**
   A file whose dynamic table spells `pairs`: there is nothing to do if no table or no
   length of one is named; otherwise entries of another size than 24 or a length that is
   not whole entries are refused, and the table is where the segments put its address.
   */
  lemma DynamicSays(bytes: Bytes, image: Image, offset: nat, size: nat, pairs: seq<(nat, nat)>,
                    address: Option<nat>, length: Option<nat>, entry: Option<nat>)
    requires image.dynamic == Some((offset, size)) && Spells(bytes, offset, size, pairs)
    requires Latest(pairs, 7, address) && Latest(pairs, 8, length) && Latest(pairs, 9, entry)
    ensures address.None? || length.None? ==> Relocations(bytes, image) == Ok(None)
    ensures address.Some? && length.Some? ==>
              Relocations(bytes, image) ==
                if entry !in {None, Some(24)} || length.value % 24 != 0 then Err(UnsupportedRelocation)
                else match FileOffsetFrom(image.segments, address.value, length.value, 0)
                     case None => Err(UnsupportedRelocation)
                     case Some(table) => Ok(Some((table, length.value / 24)))
  {
    hide Spells, FileOffsetFrom, Latest, Terminator, Tagged;
    SpellsFits(bytes, offset, size, pairs);
    EndsThere(bytes, offset, size, pairs, 0);
    assert pairs[..|pairs|] == pairs;
    TaggedIsLatest(bytes, offset, size, pairs, |pairs|, 7);
    TaggedIsLatest(bytes, offset, size, pairs, |pairs|, 8);
    TaggedIsLatest(bytes, offset, size, pairs, |pairs|, 9);
    LatestIsOne(pairs, 7, address, Tagged(bytes, offset, |pairs|, 7));
    LatestIsOne(pairs, 8, length, Tagged(bytes, offset, |pairs|, 8));
    LatestIsOne(pairs, 9, entry, Tagged(bytes, offset, |pairs|, 9));
  }

  lemma SpellsFits(bytes: Bytes, offset: nat, size: nat, pairs: seq<(nat, nat)>)
    requires Spells(bytes, offset, size, pairs)
    ensures offset + 16 * |pairs| <= |bytes|
  {
    hide Stacked, Packed;
    PairSizes(pairs);
  }

  /** A table that begins past the end of the bytes is refused, unless it has no room for a pair. */
  lemma PastTheEnd(bytes: Bytes, image: Image, offset: nat, size: nat)
    requires image.dynamic == Some((offset, size)) && |bytes| < offset
    ensures Relocations(bytes, image) == if size < 16 then Ok(None) else Err(UnsupportedRelocation)
  {
    hide Terminator;
  }

  /** A table whose bytes end inside a pair, before one with the tag zero, is refused. */
  lemma CutShortIsRefused(bytes: Bytes, image: Image, offset: nat, size: nat, pairs: seq<(nat, nat)>)
    requires image.dynamic == Some((offset, size)) && 16 * |pairs| + 16 <= size
    requires Spells(bytes, offset, 16 * |pairs|, pairs) && |bytes| < offset + 16 * |pairs| + 16
    ensures Relocations(bytes, image) == Err(UnsupportedRelocation)
  {
    hide Spells, Terminator, Tagged;
    SpellsFits(bytes, offset, 16 * |pairs|, pairs);
    EndsNowhere(bytes, offset, size, pairs, 0);
  }

  lemma {:induction false} EndsNowhere(bytes: Bytes, offset: nat, size: nat, pairs: seq<(nat, nat)>, at: nat)
    requires Spells(bytes, offset, 16 * |pairs|, pairs) && at <= |pairs| < size / 16 && offset + 16 * at <= |bytes| < offset + 16 * |pairs| + 16
    ensures Terminator(bytes, offset, size / 16, at) == None
    decreases |pairs| - at
  {
    hide Spells, Read;
    if at < |pairs| {
      PairReads(bytes, offset, 16 * |pairs|, pairs, at);
      EndsNowhere(bytes, offset, size, pairs, at + 1);
    }
  }
}
