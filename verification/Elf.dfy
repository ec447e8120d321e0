/** ELF64 parsing: the checks and the refusals, as functions of the bytes. */
module Elf {
  import opened Words
  import Digits

  const PAGE_SIZE: nat := 4096
  const KERNEL_HALF: nat := 0xffff_8000_0000_0000
  const MAX_SEGMENTS: nat := 16
  const HEADER: nat := 64
  const PT_LOAD: nat := 1
  const PT_DYNAMIC: nat := 2
  const PHENT: nat := 56

  datatype ElfError =
    | Truncated | NotElf | WrongMachine | NotExecutable | BadProgramHeaders
    | SegmentOutsideFile | SegmentOutsideUserSpace | WriteAndExecute
    | TooManySegments | SegmentsOverlap | EntryOutsideImage | UnsupportedRelocation

  datatype Protection = ReadOnly | ReadWrite | ReadExecute

  datatype Half = User | Kernel

  datatype Segment = Segment(address: nat, memorySize: nat, fileOffset: nat, fileSize: nat, protection: Protection, flags: nat)

  datatype Image = Image(entry: nat, segments: seq<Segment>, dynamic: Option<(nat, nat)>)

  function Max(a: nat, b: nat): nat { if a < b then b else a }

  /** The number at `at`, which must be there. */
  function Read(bytes: Bytes, at: nat, width: nat): (n: nat)
    requires at + width <= |bytes|
    ensures n < Span(width)
  {
    At(bytes, at, width).value
  }

  // ----- spans

  /** `n` rounded up to a page. */
  function PageUp(n: nat): nat {
    (n + PAGE_SIZE - 1) / PAGE_SIZE * PAGE_SIZE
  }

  /** The half-open range of pages a segment occupies, or `None` if it wraps. */
  function PageSpan(s: Segment): Option<(nat, nat)> {
    var end := s.address + Max(s.memorySize, 1);
    if end >= U64 || PageUp(end) >= U64 then None
    else Some((s.address / PAGE_SIZE * PAGE_SIZE, PageUp(end)))
  }

  predicate Crosses(a: (nat, nat), b: (nat, nat)) {
    a.0 < b.1 && b.0 < a.1
  }

  // ----- one program header

  datatype ProgramHeader = ProgramHeader(kind: nat, flags: nat, offset: nat, vaddr: nat, filesz: nat, memsz: nat)

  function HeaderAt(bytes: Bytes, at: nat): ProgramHeader
    requires at + PHENT <= |bytes|
  {
    ProgramHeader(Read(bytes, at, 4), Read(bytes, at + 4, 4), Read(bytes, at + 8, 8),
                  Read(bytes, at + 16, 8), Read(bytes, at + 32, 8), Read(bytes, at + 40, 8))
  }

  predicate Writable(flags: nat) { (flags / 2) % 2 == 1 }
  predicate Executable(flags: nat) { flags % 2 == 1 }

  predicate InHalf(half: Half, vaddr: nat, last: nat) {
    match half
    case User => vaddr < KERNEL_HALF && last < KERNEL_HALF
    case Kernel => vaddr >= KERNEL_HALF
  }

  function Granted(flags: nat): Protection {
    if Writable(flags) && !Executable(flags) then ReadWrite
    else if Executable(flags) && !Writable(flags) then ReadExecute
    else ReadOnly
  }

  function SegmentOf(h: ProgramHeader): Segment {
    Segment(h.vaddr, h.memsz, h.offset, h.filesz, Granted(h.flags), h.flags)
  }

  /** Why one program header is refused, if it is. `held` is how many bytes the caller has, `fileLen` how many there are. */
  function Refused(h: ProgramHeader, held: nat, fileLen: nat, half: Half): Option<ElfError> {
    if h.kind == PT_DYNAMIC then
      if h.offset + h.filesz >= U64 || h.offset + h.filesz > held then Some(BadProgramHeaders) else None
    else if h.kind != PT_LOAD then None
    else if h.offset + h.filesz >= U64 || h.offset + h.filesz > fileLen then Some(SegmentOutsideFile)
    else if h.memsz < h.filesz then Some(SegmentOutsideFile)
    else
      var last := h.vaddr + (Max(h.memsz, 1) - 1);
      if last >= U64 then Some(SegmentOutsideUserSpace)
      else if !InHalf(half, h.vaddr, last) then Some(SegmentOutsideUserSpace)
      else if Writable(h.flags) && Executable(h.flags) then Some(WriteAndExecute)
      else None
  }

  // ----- the table

  datatype Table = Table(phoff: nat, entsize: nat, count: nat)

  predicate Fits(t: Table, size: nat) {
    PHENT <= t.entsize && t.phoff + t.entsize * t.count <= size
  }

  /** Where header `i` is; it lies inside the table. */
  function Where(t: Table, i: nat): nat {
    t.phoff + i * t.entsize
  }

  lemma HeaderFits(t: Table, size: nat, i: nat)
    requires Fits(t, size) && i < t.count
    ensures Where(t, i) + PHENT <= Where(t, i) + t.entsize <= t.phoff + t.entsize * t.count <= size
  {
    Digits.MulGrows(i + 1, t.count, t.entsize);
    assert (i + 1) * t.entsize == i * t.entsize + t.entsize;
    assert t.count * t.entsize == t.entsize * t.count;
  }

  function Nth(bytes: Bytes, t: Table, i: nat): ProgramHeader
    requires Fits(t, |bytes|) && i < t.count
  {
    HeaderFits(t, |bytes|, i);
    HeaderAt(bytes, Where(t, i))
  }

  datatype Parsed = Parsed(segments: seq<Segment>, dynamic: Option<(nat, nat)>)

  /** What one accepted header adds. */
  function Added(p: Parsed, h: ProgramHeader): Result<Parsed, ElfError> {
    if h.kind == PT_DYNAMIC then Ok(p.(dynamic := Some((h.offset, h.filesz))))
    else if h.kind != PT_LOAD then Ok(p)
    else if |p.segments| >= MAX_SEGMENTS then Err(TooManySegments)
    else Ok(p.(segments := p.segments + [SegmentOf(h)]))
  }

  /** The first `n` headers, stopping at the first refusal. */
  function ParseTable(bytes: Bytes, fileLen: nat, half: Half, t: Table, n: nat): Result<Parsed, ElfError>
    requires Fits(t, |bytes|) && n <= t.count
  {
    if n == 0 then Ok(Parsed([], None))
    else
      match ParseTable(bytes, fileLen, half, t, n - 1)
      case Err(e) => Err(e)
      case Ok(p) =>
        var h := Nth(bytes, t, n - 1);
        var refused := Refused(h, |bytes|, fileLen, half);
        if refused.Some? then Err(refused.value) else Added(p, h)
  }

  // ----- after the table

  /** The first thing wrong between span `a` and the segments from `j` on. */
  function OverlapWith(segments: seq<Segment>, a: (nat, nat), j: nat): Option<ElfError>
    requires j <= |segments|
    decreases |segments| - j
  {
    if j == |segments| then None
    else
      var b := PageSpan(segments[j]);
      if b.None? then Some(SegmentOutsideUserSpace)
      else if Crosses(a, b.value) then Some(SegmentsOverlap)
      else OverlapWith(segments, a, j + 1)
  }

  function Overlap(segments: seq<Segment>, i: nat): Option<ElfError>
    requires i <= |segments|
    decreases |segments| - i
  {
    if i == |segments| then None
    else
      var a := PageSpan(segments[i]);
      if a.None? then Some(SegmentOutsideUserSpace)
      else
        var found := OverlapWith(segments, a.value, i + 1);
        if found.Some? then found else Overlap(segments, i + 1)
  }

  predicate Holds(s: Segment, entry: nat) {
    s.address <= entry && entry < (if s.address + s.memorySize < U64 then s.address + s.memorySize else U64 - 1)
  }

  function Finish(entry: nat, p: Parsed): Result<Image, ElfError> {
    if p.segments == [] then Err(NotExecutable)
    else
      var found := Overlap(p.segments, 0);
      if found.Some? then Err(found.value)
      else if exists i | 0 <= i < |p.segments| :: Holds(p.segments[i], entry) then Ok(Image(entry, p.segments, p.dynamic))
      else Err(EntryOutsideImage)
  }

  // ----- the ELF header

  function TableOf(bytes: Bytes): Table
    requires HEADER <= |bytes|
  {
    Table(Read(bytes, 32, 8), Read(bytes, 54, 2), Read(bytes, 56, 2))
  }

  /** Why the ELF header is refused before its table is looked for, if it is. */
  function HeaderRefused(bytes: Bytes, half: Half): Option<ElfError>
    requires HEADER <= |bytes|
  {
    if bytes[..4] != [0x7f, 0x45, 0x4c, 0x46] then Some(NotElf)
    else if bytes[4] != 2 || bytes[5] != 1 then Some(WrongMachine)
    else if !(Read(bytes, 16, 2) == 2 || (half == Kernel && Read(bytes, 16, 2) == 3)) then Some(NotExecutable)
    else if Read(bytes, 18, 2) != 0x3e then Some(WrongMachine)
    else if TableOf(bytes).entsize < PHENT then Some(BadProgramHeaders)
    else None
  }

  predicate TableFits(t: Table, size: nat) {
    t.phoff + t.entsize * t.count < U64 && Fits(t, size)
  }

  /** Parses a file of `fileLen` bytes of which `bytes` is the front. */
  function ParseHead(bytes: Bytes, fileLen: nat, half: Half): Result<Image, ElfError> {
    if |bytes| < HEADER || fileLen < |bytes| then Err(Truncated)
    else if HeaderRefused(bytes, half).Some? then Err(HeaderRefused(bytes, half).value)
    else
      var t := TableOf(bytes);
      if !TableFits(t, |bytes|) then Err(BadProgramHeaders)
      else
        match ParseTable(bytes, fileLen, half, t, t.count)
        case Err(e) => Err(e)
        case Ok(p) => Finish(Read(bytes, 24, 8), p)
  }

  /** Parses a file held whole. */
  function ParseIn(bytes: Bytes, half: Half): Result<Image, ElfError> {
    ParseHead(bytes, |bytes|, half)
  }
}
