/** An ELF64 file as its format lays it out, field after field, and that the parser reads it so. */
module ElfWritten {
  import opened Words
  import opened Packing
  import opened Elf
  import opened ElfTheorems

  /** The ELF header, in order; the identification after its first six bytes is one number. */
  datatype Head = Head(class64: nat, order: nat, rest: nat, kind: nat, machine: nat, version: nat, entry: nat, phoff: nat, shoff: nat,
                       flags: nat, size: nat, phentsize: nat, phnum: nat, shentsize: nat, shnum: nat, shstrndx: nat)

  function HeadRow(h: Head): (row: seq<Item>)
    ensures |row| == 20
  {
    [Item(1, 0x7f), Item(1, 0x45), Item(1, 0x4c), Item(1, 0x46), Item(1, h.class64), Item(1, h.order), Item(10, h.rest),
     Item(2, h.kind), Item(2, h.machine), Item(4, h.version), Item(8, h.entry), Item(8, h.phoff), Item(8, h.shoff), Item(4, h.flags),
     Item(2, h.size), Item(2, h.phentsize), Item(2, h.phnum), Item(2, h.shentsize), Item(2, h.shnum), Item(2, h.shstrndx)]
  }

  lemma WidthsOf(h: Head)
    ensures var row := HeadRow(h);
      && row[0].width == 1 && row[1].width == 1 && row[2].width == 1 && row[3].width == 1 && row[4].width == 1 && row[5].width == 1
      && row[6].width == 10 && row[7].width == 2 && row[8].width == 2 && row[9].width == 4 && row[10].width == 8 && row[11].width == 8
      && row[12].width == 8 && row[13].width == 4 && row[14].width == 2 && row[15].width == 2 && row[16].width == 2
      && row[17].width == 2 && row[18].width == 2 && row[19].width == 2
  {
  }

  lemma HeadSizes(h: Head)
    ensures var row := HeadRow(h);
      && Size(row) == HEADER && Size(row[..0]) == 0 && Size(row[..1]) == 1 && Size(row[..2]) == 2 && Size(row[..3]) == 3
      && Size(row[..4]) == 4 && Size(row[..5]) == 5 && Size(row[..7]) == 16 && Size(row[..8]) == 18 && Size(row[..10]) == 24
      && Size(row[..11]) == 32 && Size(row[..15]) == 54 && Size(row[..16]) == 56
  {
    hide Size;
    var row := HeadRow(h);
    SizesRun(row);
    WidthsOf(h);
    hide HeadRow;
    assert row[..20] == row;
  }

  /** A program header, in order. */
  datatype Entry = Entry(h: ProgramHeader, paddr: nat, align: nat)

  /** Eight numbers, then as many bytes as the table's entries are longer. */
  function EntryRow(e: Entry, more: nat): (row: seq<Item>)
    ensures |row| == 9
  {
    [Item(4, e.h.kind), Item(4, e.h.flags), Item(8, e.h.offset), Item(8, e.h.vaddr), Item(8, e.paddr), Item(8, e.h.filesz), Item(8, e.h.memsz),
     Item(8, e.align), Item(more, 0)]
  }

  lemma EntrySizes(e: Entry, more: nat)
    ensures var row := EntryRow(e, more);
      && Size(row) == PHENT + more && Size(row[..0]) == 0 && Size(row[..1]) == 4 && Size(row[..2]) == 8 && Size(row[..3]) == 16
      && Size(row[..5]) == 32 && Size(row[..6]) == 40
  {
    var row := EntryRow(e, more);
    SizesRun(row);
    hide Size;
    assert row[0].width == 4 && row[1].width == 4 && row[2].width == 8 && row[3].width == 8;
    assert row[4].width == 8 && row[5].width == 8 && row[6].width == 8 && row[7].width == 8;
    assert row[8].width == more && row[..9] == row;
  }

  function EntryRows(entries: seq<Entry>, more: nat): (rows: seq<seq<Item>>)
    ensures |rows| == |entries|
  {
    seq(|entries|, i requires 0 <= i < |entries| => EntryRow(entries[i], more))
  }

  /** A file that begins with this header and has these program headers where it says. */
  ghost predicate Written(bytes: Bytes, head: Head, entries: seq<Entry>) {
    && Fit(HeadRow(head)) && head.phnum == |entries| && PHENT <= head.phentsize
    && (forall i | 0 <= i < |entries| :: Fit(EntryRow(entries[i], head.phentsize - PHENT)))
    && Packed(HeadRow(head)) <= bytes
    && var table := Stacked(EntryRows(entries, head.phentsize - PHENT));
    head.phoff + |table| <= |bytes| && bytes[head.phoff..head.phoff + |table|] == table
  }

  lemma OneByte(bytes: Bytes, at: nat)
    requires at < |bytes|
    ensures At(bytes, at, 1) == Some(bytes[at])
  {
    assert bytes[at..at + 1][1..] == [];
  }

  /** The header is read as it was written. */
  lemma HeadReads(bytes: Bytes, head: Head)
    requires Fit(HeadRow(head)) && Packed(HeadRow(head)) <= bytes
    ensures HEADER <= |bytes| && bytes[..4] == [0x7f, 0x45, 0x4c, 0x46] && bytes[4] == head.class64 && bytes[5] == head.order
    ensures Read(bytes, 16, 2) == head.kind && Read(bytes, 18, 2) == head.machine && Read(bytes, 24, 8) == head.entry
    ensures TableOf(bytes) == Table(head.phoff, head.phentsize, head.phnum)
  {
    hide Packed, Size, At, Span;
    var row := HeadRow(head);
    HeadSizes(head);
    assert bytes[0..0 + Size(row)] == Packed(row);
    PackedReads(bytes, 0, row, 0);
    PackedReads(bytes, 0, row, 1);
    PackedReads(bytes, 0, row, 2);
    PackedReads(bytes, 0, row, 3);
    PackedReads(bytes, 0, row, 4);
    PackedReads(bytes, 0, row, 5);
    PackedReads(bytes, 0, row, 7);
    PackedReads(bytes, 0, row, 8);
    PackedReads(bytes, 0, row, 10);
    PackedReads(bytes, 0, row, 11);
    PackedReads(bytes, 0, row, 15);
    PackedReads(bytes, 0, row, 16);
    OneByte(bytes, 0);
    OneByte(bytes, 1);
    OneByte(bytes, 2);
    OneByte(bytes, 3);
    OneByte(bytes, 4);
    OneByte(bytes, 5);
  }

  /** The table lies where the header says, and each of its entries is read as it was written. */
  lemma TableReads(bytes: Bytes, head: Head, entries: seq<Entry>, i: nat)
    requires Written(bytes, head, entries) && i < |entries|
    ensures var t := Table(head.phoff, head.phentsize, head.phnum); Fits(t, |bytes|) && Nth(bytes, t, i) == entries[i].h
  {
    hide Packed, Size, At, Stacked, Span;
    var more, size := head.phentsize - PHENT, head.phentsize;
    var rows := EntryRows(entries, more);
    forall k | 0 <= k < |rows|
      ensures Size(rows[k]) == size
    {
      EntrySizes(entries[k], more);
    }
    EntrySizes(entries[i], more);
    StackedSize(rows, size);
    assert size * |entries| == |entries| * size;
    StackedReads(bytes, head.phoff, rows, size, i, 0);
    StackedReads(bytes, head.phoff, rows, size, i, 1);
    StackedReads(bytes, head.phoff, rows, size, i, 2);
    StackedReads(bytes, head.phoff, rows, size, i, 3);
    StackedReads(bytes, head.phoff, rows, size, i, 5);
    StackedReads(bytes, head.phoff, rows, size, i, 6);
  }

  /** The loadable segments among the program headers, in order. */
  function LoadsOf(entries: seq<Entry>): seq<Segment> {
    if entries == [] then []
    else (if entries[0].h.kind == PT_LOAD then [SegmentOf(entries[0].h)] else []) + LoadsOf(entries[1..])
  }

  lemma {:induction false} LoadsOfMore(entries: seq<Entry>, e: Entry)
    ensures LoadsOf(entries + [e]) == LoadsOf(entries) + if e.h.kind == PT_LOAD then [SegmentOf(e.h)] else []
  {
    if entries == [] {
      assert entries + [e] == [e];
    } else {
      LoadsOfMore(entries[1..], e);
      assert (entries + [e])[1..] == entries[1..] + [e];
    }
  }

  lemma {:induction false} LoadsRead(bytes: Bytes, head: Head, entries: seq<Entry>, n: nat)
    requires Written(bytes, head, entries) && 0 < n <= |entries|
    ensures var t := Table(head.phoff, head.phentsize, head.phnum);
      Fits(t, |bytes|) && Loads(bytes, t, n) == LoadsOf(entries[..n])
  {
    hide Written, Fits, Nth, LoadsOf;
    TableReads(bytes, head, entries, n - 1);
    LoadsOfMore(entries[..n - 1], entries[n - 1]);
    assert entries[..n] == entries[..n - 1] + [entries[n - 1]];
    if n == 1 {
      LoadsOfNone(entries);
    } else {
      LoadsRead(bytes, head, entries, n - 1);
    }
  }

  lemma LoadsOfNone(entries: seq<Entry>)
    ensures LoadsOf(entries[..0]) == []
  {
  }

  /**
   A file written so is accepted with exactly these segments and this entry, if its
   header is an executable's for this machine, its segments are in order, apart and hold
   the entry, and none of it reaches 2^64; and otherwise it is refused.
   */
  lemma WrittenParses(bytes: Bytes, head: Head, entries: seq<Entry>, half: Half)
    requires Written(bytes, head, entries) && |bytes| < U64 && entries != []
    ensures ParseIn(bytes, half).Ok? <==>
              && head.class64 == 2 && head.order == 1 && head.machine == 62 && (head.kind == 2 || (head.kind == 3 && half == Kernel))
              && (forall i | 0 <= i < |entries| :: HeaderOk(entries[i].h, |bytes|, |bytes|, half))
              && 0 < |LoadsOf(entries)| <= MAX_SEGMENTS && Apart(LoadsOf(entries), 0)
              && exists i | 0 <= i < |LoadsOf(entries)| :: Contains(LoadsOf(entries)[i], head.entry)
    ensures ParseIn(bytes, half).Ok? ==> ParseIn(bytes, half).value.segments == LoadsOf(entries) && ParseIn(bytes, half).value.entry == head.entry
  {
    hide Written, Nth, LoadsOf, ParseHead, Read, Loads, LastDynamic, HeaderOk, Apart, Contains, TableOf;
    WrittenFits(bytes, head, entries);
    HeadReads(bytes, head);
    var t := TableOf(bytes);
    LoadsRead(bytes, head, entries, |entries|);
    assert entries[..|entries|] == entries;
    forall i | 0 <= i < |entries|
      ensures Nth(bytes, t, i) == entries[i].h
    {
      TableReads(bytes, head, entries, i);
    }
    var image := Image(head.entry, LoadsOf(entries), LastDynamic(bytes, t, t.count));
    AcceptsExactly(bytes, |bytes|, half, image);
    if ParseIn(bytes, half).Ok? {
      AcceptsExactly(bytes, |bytes|, half, ParseIn(bytes, half).value);
    }
  }

  lemma WrittenFits(bytes: Bytes, head: Head, entries: seq<Entry>)
    requires Written(bytes, head, entries) && entries != []
    ensures Fit(HeadRow(head)) && Packed(HeadRow(head)) <= bytes && head.phnum == |entries|
    ensures head.phoff + head.phentsize * head.phnum <= |bytes|
  {
    hide Packed, Stacked;
    TableReads(bytes, head, entries, 0);
  }
}
