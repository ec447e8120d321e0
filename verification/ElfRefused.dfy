/** A file whose relocations are refused after they were begun. */
module ElfRefused {
  import opened Words
  import opened Records
  import opened Elf
  import opened ElfRelocation

  // ----- reading what is laid end to end

  lemma ReadBefore(a: Bytes, b: Bytes, at: nat, width: nat)
    requires at + width <= |a|
    ensures Read(a + b, at, width) == Read(a, at, width)
  {
    assert (a + b)[at..at + width] == a[at..at + width];
  }

  lemma ReadAfter(a: Bytes, b: Bytes, at: nat, width: nat)
    requires at + width <= |b|
    ensures Read(a + b, |a| + at, width) == Read(b, at, width)
  {
    assert (a + b)[|a| + at..|a| + at + width] == b[at..at + width];
  }

  lemma ReadByte(bytes: Bytes, at: nat)
    requires at < |bytes|
    ensures Read(bytes, at, 1) == bytes[at]
  {
    assert bytes[at..at + 1][1..] == [];
  }

  /** Each field put into zeros reads back. */
  lemma FieldReads(size: nat, fields: seq<Field>, k: nat)
    requires Records.Fits(fields, size) && Disjoint(fields) && k < |fields|
    ensures Read(PutAll(Zeros(size), fields), fields[k].at, fields[k].width) == fields[k].value
  {
    hide At, PutAll;
    PutReads(Zeros(size), fields, k);
  }

  // ----- the ELF header

  /** An executable for this machine with `count` program headers after it, entered at `entry`. */
  function FrontFields(entry: nat, count: nat): (fields: seq<Field>)
    ensures |fields| == 12
  {
    [Field(0, 1, 0x7f), Field(1, 1, 0x45), Field(2, 1, 0x4c), Field(3, 1, 0x46), Field(4, 1, 2), Field(5, 1, 1),
     Field(16, 2, 2), Field(18, 2, 0x3e), Field(24, 8, entry), Field(32, 8, HEADER), Field(54, 2, PHENT), Field(56, 2, count)]
  }

  lemma FrontFits(entry: nat, count: nat)
    requires entry < U64 && count < U16
    ensures Records.Fits(FrontFields(entry, count), HEADER) && Disjoint(FrontFields(entry, count))
  {
    Spans();
    assert Span(1) == 256 * Span(0);
  }

  function Front(entry: nat, count: nat): (bytes: Bytes)
    requires entry < U64 && count < U16
    ensures |bytes| == HEADER
  {
    FrontFits(entry, count);
    PutAll(Zeros(HEADER), FrontFields(entry, count))
  }

  lemma FrontReads(entry: nat, count: nat)
    requires entry < U64 && count < U16
    ensures var bytes := Front(entry, count);
      && bytes[..4] == [0x7f, 0x45, 0x4c, 0x46] && bytes[4] == 2 && bytes[5] == 1
      && Read(bytes, 16, 2) == 2 && Read(bytes, 18, 2) == 0x3e && Read(bytes, 24, 8) == entry
      && Read(bytes, 32, 8) == HEADER && Read(bytes, 54, 2) == PHENT && Read(bytes, 56, 2) == count
  {
    hide Read, PutAll, Records.Fits, Disjoint;
    var bytes, fields := Front(entry, count), FrontFields(entry, count);
    FrontFits(entry, count);
    forall k: nat | k < 12
      ensures Read(bytes, fields[k].at, fields[k].width) == fields[k].value
    {
      FieldReads(HEADER, fields, k);
    }
    assert fields[0] == Field(0, 1, 0x7f) && fields[1] == Field(1, 1, 0x45) && fields[2] == Field(2, 1, 0x4c);
    assert fields[3] == Field(3, 1, 0x46) && fields[4] == Field(4, 1, 2) && fields[5] == Field(5, 1, 1);
    assert fields[6] == Field(16, 2, 2) && fields[7] == Field(18, 2, 0x3e) && fields[8] == Field(24, 8, entry);
    assert fields[9] == Field(32, 8, HEADER) && fields[10] == Field(54, 2, PHENT) && fields[11] == Field(56, 2, count);
    ReadByte(bytes, 0);
    ReadByte(bytes, 1);
    ReadByte(bytes, 2);
    ReadByte(bytes, 3);
    ReadByte(bytes, 4);
    ReadByte(bytes, 5);
  }

  // ----- program headers

  predicate Wordsized(h: ProgramHeader) {
    h.kind < U32 && h.flags < U32 && h.offset < U64 && h.vaddr < U64 && h.filesz < U64 && h.memsz < U64
  }

  function HeaderFields(h: ProgramHeader): (fields: seq<Field>)
    ensures |fields| == 6
  {
    [Field(0, 4, h.kind), Field(4, 4, h.flags), Field(8, 8, h.offset), Field(16, 8, h.vaddr), Field(32, 8, h.filesz), Field(40, 8, h.memsz)]
  }

  lemma HeaderFieldsFit(h: ProgramHeader)
    requires Wordsized(h)
    ensures Records.Fits(HeaderFields(h), PHENT) && Disjoint(HeaderFields(h))
  {
    Spans();
  }

  function HeaderBytes(h: ProgramHeader): (bytes: Bytes)
    requires Wordsized(h)
    ensures |bytes| == PHENT
  {
    HeaderFieldsFit(h);
    PutAll(Zeros(PHENT), HeaderFields(h))
  }

  /** A header reads back, whatever is around it. */
  lemma HeaderReads(before: Bytes, h: ProgramHeader, after: Bytes)
    requires Wordsized(h)
    ensures HeaderAt(before + (HeaderBytes(h) + after), |before|) == h
  {
    hide Read, PutAll, Records.Fits, Disjoint;
    var bytes, fields := HeaderBytes(h), HeaderFields(h);
    HeaderFieldsFit(h);
    forall k: nat | k < 6
      ensures Read(before + (bytes + after), |before| + fields[k].at, fields[k].width) == fields[k].value
    {
      assert fields[k].at + fields[k].width <= PHENT;
      FieldReads(PHENT, fields, k);
      ReadBefore(bytes, after, fields[k].at, fields[k].width);
      ReadAfter(before, bytes + after, fields[k].at, fields[k].width);
    }
    assert fields[0] == Field(0, 4, h.kind) && fields[1] == Field(4, 4, h.flags) && fields[2] == Field(8, 8, h.offset);
    assert fields[3] == Field(16, 8, h.vaddr) && fields[4] == Field(32, 8, h.filesz) && fields[5] == Field(40, 8, h.memsz);
  }

  // ----- the dynamic table and the relocations

  const BASE: nat := 4096
  const DYNAMIC: nat := HEADER + 2 * PHENT
  const TABLE: nat := DYNAMIC + 32

  /** A dynamic table naming two relocations, the first relative and the second not. */
  function TailFields(): (fields: seq<Field>)
    ensures |fields| == 10
  {
    [Field(0, 8, DT_RELA), Field(8, 8, BASE + TABLE), Field(16, 8, DT_RELASZ), Field(24, 8, 2 * RELA),
     Field(32, 8, BASE), Field(40, 8, R_RELATIVE), Field(48, 8, 5), Field(56, 8, BASE), Field(64, 8, 1), Field(72, 8, 6)]
  }

  lemma TailFits()
    ensures Records.Fits(TailFields(), 80) && Disjoint(TailFields())
  {
    Spans();
  }

  function Tail(): (bytes: Bytes)
    ensures |bytes| == 80
  {
    TailFits();
    PutAll(Zeros(80), TailFields())
  }

  // ----- the file

  const LOAD: ProgramHeader := ProgramHeader(PT_LOAD, 4, 0, BASE, DYNAMIC + 80, DYNAMIC + 80)
  const DYNAMICS: ProgramHeader := ProgramHeader(PT_DYNAMIC, 4, DYNAMIC, BASE + DYNAMIC, 32, 32)

  /** One segment holding the whole file, with the dynamic table and the relocations at its end. */
  function File(): (bytes: Bytes)
    ensures |bytes| == DYNAMIC + 80
  {
    Front(BASE, 2) + (HeaderBytes(LOAD) + (HeaderBytes(DYNAMICS) + Tail()))
  }

  const IMAGE: Image := Image(BASE, [SegmentOf(LOAD)], Some((DYNAMIC, 32)))

  lemma TailReads()
    ensures var bytes := File();
      && Read(bytes, DYNAMIC, 8) == DT_RELA && Read(bytes, DYNAMIC + 8, 8) == BASE + TABLE
      && Read(bytes, DYNAMIC + 16, 8) == DT_RELASZ && Read(bytes, DYNAMIC + 24, 8) == 2 * RELA
      && Read(bytes, TABLE, 8) == BASE && Read(bytes, TABLE + 8, 8) == R_RELATIVE && Read(bytes, TABLE + 16, 8) == 5
      && Read(bytes, TABLE + RELA + 8, 8) == 1
  {
    hide Read, PutAll, Records.Fits, Disjoint, Front, HeaderBytes;
    var front, fields := Front(BASE, 2) + (HeaderBytes(LOAD) + HeaderBytes(DYNAMICS)), TailFields();
    assert File() == front + Tail();
    TailFits();
    forall k: nat | k < 10
      ensures Read(File(), DYNAMIC + fields[k].at, fields[k].width) == fields[k].value
    {
      assert fields[k].at + fields[k].width <= 80;
      FieldReads(80, fields, k);
      ReadAfter(front, Tail(), fields[k].at, fields[k].width);
    }
    assert fields[0] == Field(0, 8, DT_RELA) && fields[1] == Field(8, 8, BASE + TABLE) && fields[2] == Field(16, 8, DT_RELASZ);
    assert fields[3] == Field(24, 8, 2 * RELA) && fields[4] == Field(32, 8, BASE) && fields[5] == Field(40, 8, R_RELATIVE);
    assert fields[6] == Field(48, 8, 5) && fields[8] == Field(64, 8, 1);
  }

  lemma FileHeader()
    ensures HeaderRefused(File(), User).None? && TableOf(File()) == Table(HEADER, PHENT, 2) && Read(File(), 24, 8) == BASE
  {
    hide Read, Front, HeaderBytes, Tail;
    var front, rest := Front(BASE, 2), HeaderBytes(LOAD) + (HeaderBytes(DYNAMICS) + Tail());
    FrontReads(BASE, 2);
    assert File()[..4] == front[..4] && File()[4] == front[4] && File()[5] == front[5];
    ReadBefore(front, rest, 16, 2);
    ReadBefore(front, rest, 18, 2);
    ReadBefore(front, rest, 24, 8);
    ReadBefore(front, rest, 32, 8);
    ReadBefore(front, rest, 54, 2);
    ReadBefore(front, rest, 56, 2);
  }

  lemma FileTable()
    ensures HeaderAt(File(), HEADER) == LOAD && HeaderAt(File(), HEADER + PHENT) == DYNAMICS
  {
    hide Read, Front, HeaderBytes, Tail, HeaderAt;
    var front := Front(BASE, 2);
    HeaderReads(front, LOAD, HeaderBytes(DYNAMICS) + Tail());
    HeaderReads(front + HeaderBytes(LOAD), DYNAMICS, Tail());
    assert File() == (front + HeaderBytes(LOAD)) + (HeaderBytes(DYNAMICS) + Tail());
  }

  /** The file parses. */
  lemma FileParses()
    ensures ParseIn(File(), User) == Ok(IMAGE)
  {
    hide Read, File, HeaderAt, HeaderRefused, TableOf;
    FileHeader();
    FileTable();
    var t := Table(HEADER, PHENT, 2);
    assert Where(t, 0) == HEADER && Where(t, 1) == HEADER + PHENT;
    assert Nth(File(), t, 0) == LOAD && Nth(File(), t, 1) == DYNAMICS;
    assert Refused(LOAD, |File()|, |File()|, User) == None && Refused(DYNAMICS, |File()|, |File()|, User) == None;
    var none: seq<Segment> := [];
    assert none + [SegmentOf(LOAD)] == [SegmentOf(LOAD)];
    assert Added(Parsed(none, None), LOAD) == Ok(Parsed([SegmentOf(LOAD)], None));
    assert ParseTable(File(), |File()|, User, t, 0) == Ok(Parsed([], None));
    assert ParseTable(File(), |File()|, User, t, 1) == Ok(Parsed([SegmentOf(LOAD)], None));
    assert ParseTable(File(), |File()|, User, t, 2) == Ok(Parsed([SegmentOf(LOAD)], Some((DYNAMIC, 32))));
    var s := SegmentOf(LOAD);
    assert PageSpan(s) == Some((4096, 8192));
    assert Overlap([s], 0) == None;
    assert Holds([s][0], BASE);
  }

  /** The file parses, its table has two entries, and the walk is refused with the first one applied. */
  lemma RefusedInPart()
    ensures ParseIn(File(), User) == Ok(IMAGE) && Relocations(File(), IMAGE) == Ok(Some((TABLE, 2)))
    ensures Good(File(), IMAGE.segments, TABLE, 0) && !Good(File(), IMAGE.segments, TABLE, 1)
    ensures RelaAt(File(), TABLE, 0) == (BASE, 5)
  {
    hide Read, File, ParseIn;
    FileParses();
    TailReads();
    var bytes := File();
    assert Terminator(bytes, DYNAMIC, 2, 0) == Terminator(bytes, DYNAMIC, 2, 1) == Terminator(bytes, DYNAMIC, 2, 2) == Some(2);
    assert Tagged(bytes, DYNAMIC, 1, DT_RELA) == Some(BASE + TABLE) && Tagged(bytes, DYNAMIC, 2, DT_RELA) == Some(BASE + TABLE);
    assert Tagged(bytes, DYNAMIC, 2, DT_RELASZ) == Some(48);
    assert Tagged(bytes, DYNAMIC, 0, DT_RELAENT) == None && Tagged(bytes, DYNAMIC, 1, DT_RELAENT) == None
        && Tagged(bytes, DYNAMIC, 2, DT_RELAENT) == None;
    assert FileOffsetFrom(IMAGE.segments, BASE + TABLE, 48, 0) == Some(TABLE);
    assert Covered(IMAGE.segments[0], BASE);
    InsideExactly(IMAGE.segments, BASE);
    assert Good(bytes, IMAGE.segments, TABLE, 0) && !Good(bytes, IMAGE.segments, TABLE, 1);
  }
}
