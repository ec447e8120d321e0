/** What the ELF parser guarantees: the loop is the function, a front is as good as the file, and acceptance is exact. */
module ElfTheorems {
  import opened Words
  import opened Elf

  // ----- the parser as it runs

  /** The quadratic check that no two segments share a page. */
  method CheckOverlap(segments: seq<Segment>) returns (r: Option<ElfError>)
    ensures r == Overlap(segments, 0)
  {
    for index := 0 to |segments|
      invariant Overlap(segments, 0) == Overlap(segments, index)
    {
      var a := PageSpan(segments[index]);
      if a.None? {
        return Some(SegmentOutsideUserSpace);
      }
      for other := index + 1 to |segments|
        invariant OverlapWith(segments, a.value, index + 1) == OverlapWith(segments, a.value, other)
      {
        var b := PageSpan(segments[other]);
        if b.None? {
          return Some(SegmentOutsideUserSpace);
        }
        if Crosses(a.value, b.value) {
          return Some(SegmentsOverlap);
        }
      }
    }
    return None;
  }

  method EntryMapped(segments: seq<Segment>, entry: nat) returns (mapped: bool)
    ensures mapped <==> exists i | 0 <= i < |segments| :: Holds(segments[i], entry)
  {
    for i := 0 to |segments|
      invariant forall j | 0 <= j < i :: !Holds(segments[j], entry)
    {
      if Holds(segments[i], entry) {
        return true;
      }
    }
    return false;
  }

  /** The table loop: fills segments and the dynamic segment, header by header. */
  method WalkTable(bytes: Bytes, fileLen: nat, half: Half, t: Table) returns (r: Result<Parsed, ElfError>)
    requires Fits(t, |bytes|)
    ensures r == ParseTable(bytes, fileLen, half, t, t.count)
  {
    hide HeaderAt, Refused;
    var segments: seq<Segment>, dynamic: Option<(nat, nat)> := [], None;
    for index := 0 to t.count
      invariant ParseTable(bytes, fileLen, half, t, index) == Ok(Parsed(segments, dynamic))
    {
      HeaderFits(t, |bytes|, index);
      var h := HeaderAt(bytes, t.phoff + index * t.entsize);
      var refused := Refused(h, |bytes|, fileLen, half);
      assert ParseTable(bytes, fileLen, half, t, index + 1)
          == if refused.Some? then Err(refused.value) else Added(Parsed(segments, dynamic), h);
      if refused.Some? {
        Stops(bytes, fileLen, half, t, index + 1, t.count);
        return Err(refused.value);
      }
      if h.kind == PT_DYNAMIC {
        dynamic := Some((h.offset, h.filesz));
      } else if h.kind == PT_LOAD {
        if |segments| >= MAX_SEGMENTS {
          Stops(bytes, fileLen, half, t, index + 1, t.count);
          return Err(TooManySegments);
        }
        segments := segments + [SegmentOf(h)];
      }
    }
    return Ok(Parsed(segments, dynamic));
  }

  /** A refusal stands, whatever follows. */
  lemma {:induction false} Stops(bytes: Bytes, fileLen: nat, half: Half, t: Table, i: nat, n: nat)
    requires Fits(t, |bytes|) && i <= n <= t.count && ParseTable(bytes, fileLen, half, t, i).Err?
    ensures ParseTable(bytes, fileLen, half, t, n) == ParseTable(bytes, fileLen, half, t, i)
    decreases n - i
  {
    if i < n {
      Stops(bytes, fileLen, half, t, i, n - 1);
    }
  }

  method Parse(bytes: Bytes, fileLen: nat, half: Half) returns (r: Result<Image, ElfError>)
    ensures r == ParseHead(bytes, fileLen, half)
  {
    hide ParseTable, Overlap, HeaderRefused;
    if |bytes| < HEADER || fileLen < |bytes| {
      return Err(Truncated);
    }
    var refused := HeaderRefused(bytes, half);
    if refused.Some? {
      return Err(refused.value);
    }
    var t := TableOf(bytes);
    if !TableFits(t, |bytes|) {
      return Err(BadProgramHeaders);
    }
    var parsed := WalkTable(bytes, fileLen, half, t);
    if parsed.Err? {
      return Err(parsed.error);
    }
    var segments := parsed.value.segments;
    if |segments| == 0 {
      return Err(NotExecutable);
    }
    var overlap := CheckOverlap(segments);
    if overlap.Some? {
      return Err(overlap.value);
    }
    var mapped := EntryMapped(segments, Read(bytes, 24, 8));
    if !mapped {
      return Err(EntryOutsideImage);
    }
    return Ok(Image(Read(bytes, 24, 8), segments, parsed.value.dynamic));
  }

  // ----- a front of the file

  lemma ReadFront(file: Bytes, k: nat, at: nat, width: nat)
    requires at + width <= k <= |file|
    ensures Read(file[..k], at, width) == Read(file, at, width)
  {
    assert file[..k][at..at + width] == file[at..at + width];
  }

  lemma HeaderFront(file: Bytes, k: nat, at: nat)
    requires at + PHENT <= k <= |file|
    ensures HeaderAt(file[..k], at) == HeaderAt(file, at)
  {
    hide Read;
    ReadFront(file, k, at, 4);
    ReadFront(file, k, at + 4, 4);
    ReadFront(file, k, at + 8, 8);
    ReadFront(file, k, at + 16, 8);
    ReadFront(file, k, at + 32, 8);
    ReadFront(file, k, at + 40, 8);
  }

  lemma ElfHeaderFront(file: Bytes, k: nat, half: Half)
    requires HEADER <= k <= |file|
    ensures HeaderRefused(file[..k], half) == HeaderRefused(file, half)
    ensures TableOf(file[..k]) == TableOf(file) && Read(file[..k], 24, 8) == Read(file, 24, 8)
  {
    hide Read;
    assert file[..k][..4] == file[..4];
    ReadFront(file, k, 16, 2);
    ReadFront(file, k, 18, 2);
    ReadFront(file, k, 24, 8);
    ReadFront(file, k, 32, 8);
    ReadFront(file, k, 54, 2);
    ReadFront(file, k, 56, 2);
  }

  /** Header by header, a front parses as the file does unless it is missing a dynamic segment. */
  lemma {:induction false} TableFront(file: Bytes, k: nat, half: Half, t: Table, n: nat)
    requires k <= |file| && Fits(t, k) && n <= t.count
    ensures ParseTable(file[..k], |file|, half, t, n) == ParseTable(file, |file|, half, t, n)
            || (ParseTable(file[..k], |file|, half, t, n) == Err(BadProgramHeaders)
                && exists i | 0 <= i < n :: Short(file, k, t, i))
  {
    hide HeaderAt;
    if n > 0 {
      TableFront(file, k, half, t, n - 1);
      HeaderFits(t, k, n - 1);
      HeaderFront(file, k, Where(t, n - 1));
      assert Nth(file[..k], t, n - 1) == Nth(file, t, n - 1);
      assert Refused(Nth(file, t, n - 1), k, |file|, half) == Refused(Nth(file, t, n - 1), |file|, |file|, half)
          || Short(file, k, t, n - 1);
    }
  }

  /** Header `i` is a dynamic segment inside the file whose bytes the front does not reach. */
  ghost predicate Short(file: Bytes, k: nat, t: Table, i: nat)
    requires k <= |file| && Fits(t, k)
  {
    i < t.count
    && var h := Nth(file, t, i);
    h.kind == PT_DYNAMIC && k < h.offset + h.filesz <= |file|
  }

  /** `k` bytes reach past the ELF header, the table and every dynamic segment that lie in the file. */
  ghost predicate Covers(file: Bytes, k: nat) {
    && k <= |file| && (HEADER <= |file| ==> HEADER <= k)
    && (HEADER <= k && TableFits(TableOf(file), |file|) ==>
          && TableFits(TableOf(file), k)
          && forall i | 0 <= i < TableOf(file).count :: !Short(file, k, TableOf(file), i))
  }

  /** Whatever front is given, parsing it agrees with parsing the file or asks for more of it. */
  lemma FrontAgreesOrAsks(file: Bytes, k: nat, half: Half)
    requires k <= |file|
    ensures ParseHead(file[..k], |file|, half) == ParseIn(file, half)
            || ParseHead(file[..k], |file|, half) in {Err(Truncated), Err(BadProgramHeaders)}
  {
    hide ParseTable, HeaderRefused, Read, Finish;
    if HEADER <= k {
      ElfHeaderFront(file, k, half);
      var t := TableOf(file);
      if TableFits(t, k) {
        TableFront(file, k, half, t, t.count);
      }
    }
  }

  /**
   Streaming parse equals whole-file parse: a front that covers the header, the table
   and the dynamic segments gives the same result as the file, error variant included.
   */
  lemma CoveringFrontIsEnough(file: Bytes, k: nat, half: Half)
    requires Covers(file, k)
    ensures ParseHead(file[..k], |file|, half) == ParseIn(file, half)
  {
    hide ParseTable, HeaderRefused, Read, Finish, Short;
    if HEADER <= k {
      ElfHeaderFront(file, k, half);
      var t := TableOf(file);
      if TableFits(t, k) {
        TableFront(file, k, half, t, t.count);
      }
    }
  }

  // ----- acceptance is exact

  /** An address of the segment's memory. */
  ghost predicate Contains(s: Segment, x: nat) {
    s.address <= x < s.address + s.memorySize
  }

  /** An address the segment takes up; an empty one takes up the address it is at. */
  ghost predicate Occupies(s: Segment, x: nat) {
    Contains(s, x) || x == s.address
  }

  ghost function HalfOf(x: nat): Half {
    if x < KERNEL_HALF then User else Kernel
  }

  /** A loadable segment: its bytes are in the file, every address it takes up in its half, and it is not both writable and executable. */
  ghost predicate LoadOk(h: ProgramHeader, fileLen: nat, half: Half) {
    && h.offset + h.filesz <= fileLen && h.filesz <= h.memsz
    && (forall x: nat | Occupies(SegmentOf(h), x) :: x < U64 && HalfOf(x) == half)
    && h.flags % 4 != 3
  }

  /** The two low bits of the flags: one for executable, two for writable. */
  lemma FlagBits(flags: nat)
    ensures Executable(flags) <==> flags % 4 in {1, 3}
    ensures Writable(flags) <==> flags % 4 in {2, 3}
  {
  }

  /** The addresses a segment takes up run to its last one. */
  lemma OccupiesTo(s: Segment)
    ensures Occupies(s, s.address) && Occupies(s, s.address + Max(s.memorySize, 1) - 1)
    ensures forall x: nat | Occupies(s, x) :: s.address <= x <= s.address + Max(s.memorySize, 1) - 1
  {
  }

  lemma LoadOkMeans(h: ProgramHeader, fileLen: nat, half: Half)
    ensures LoadOk(h, fileLen, half) <==>
              && h.offset + h.filesz <= fileLen && h.filesz <= h.memsz && h.vaddr + Max(h.memsz, 1) <= U64
              && InHalf(half, h.vaddr, h.vaddr + Max(h.memsz, 1) - 1) && !(Writable(h.flags) && Executable(h.flags))
  {
    hide Writable, Executable;
    FlagBits(h.flags);
    OccupiesTo(SegmentOf(h));
  }

  ghost predicate HeaderOk(h: ProgramHeader, held: nat, fileLen: nat, half: Half) {
    && (h.kind == PT_LOAD ==> LoadOk(h, fileLen, half))
    && (h.kind == PT_DYNAMIC ==> h.offset + h.filesz <= held)
  }

  lemma RefusedMeans(h: ProgramHeader, held: nat, fileLen: nat, half: Half)
    requires held <= fileLen < U64
    ensures Refused(h, held, fileLen, half).None? <==> HeaderOk(h, held, fileLen, half)
  {
    LoadOkMeans(h, fileLen, half);
  }

  /** The loadable segments among the first `n` headers, in file order. */
  function Loads(bytes: Bytes, t: Table, n: nat): seq<Segment>
    requires Fits(t, |bytes|) && n <= t.count
  {
    if n == 0 then []
    else
      var h := Nth(bytes, t, n - 1);
      Loads(bytes, t, n - 1) + if h.kind == PT_LOAD then [SegmentOf(h)] else []
  }

  /** The last dynamic segment among the first `n` headers. */
  function LastDynamic(bytes: Bytes, t: Table, n: nat): Option<(nat, nat)>
    requires Fits(t, |bytes|) && n <= t.count
  {
    if n == 0 then None
    else
      var h := Nth(bytes, t, n - 1);
      if h.kind == PT_DYNAMIC then Some((h.offset, h.filesz)) else LastDynamic(bytes, t, n - 1)
  }

  ghost predicate TableOk(bytes: Bytes, fileLen: nat, half: Half, t: Table, n: nat)
    requires Fits(t, |bytes|) && n <= t.count
  {
    && (forall i | 0 <= i < n :: HeaderOk(Nth(bytes, t, i), |bytes|, fileLen, half))
    && |Loads(bytes, t, n)| <= MAX_SEGMENTS
  }

  lemma {:induction false} TableExact(bytes: Bytes, fileLen: nat, half: Half, t: Table, n: nat)
    requires Fits(t, |bytes|) && n <= t.count && |bytes| <= fileLen < U64
    ensures ParseTable(bytes, fileLen, half, t, n).Ok? <==> TableOk(bytes, fileLen, half, t, n)
    ensures ParseTable(bytes, fileLen, half, t, n).Ok? ==>
              ParseTable(bytes, fileLen, half, t, n).value == Parsed(Loads(bytes, t, n), LastDynamic(bytes, t, n))
  {
    hide Nth, HeaderOk, Refused;
    if n > 0 {
      TableExact(bytes, fileLen, half, t, n - 1);
      RefusedMeans(Nth(bytes, t, n - 1), |bytes|, fileLen, half);
    }
  }

  /** The segment takes up an address on the page. */
  ghost predicate OnPage(s: Segment, page: nat) {
    exists x: nat :: Occupies(s, x) && x / PAGE_SIZE == page
  }

  /** Every page the segment is on ends below 2^64. */
  ghost predicate BelowTop(s: Segment) {
    forall page: nat | OnPage(s, page) :: (page + 1) * PAGE_SIZE < U64
  }

  ghost predicate SharesPage(s: Segment, t: Segment) {
    exists page: nat :: OnPage(s, page) && OnPage(t, page)
  }

  lemma PagesRun(s: Segment, page: nat)
    ensures OnPage(s, page) <==> s.address / PAGE_SIZE <= page <= (s.address + Max(s.memorySize, 1) - 1) / PAGE_SIZE
  {
    var last := s.address + Max(s.memorySize, 1) - 1;
    OccupiesTo(s);
    if s.address / PAGE_SIZE <= page <= last / PAGE_SIZE {
      var x := if page * PAGE_SIZE <= s.address then s.address else page * PAGE_SIZE;
      assert Occupies(s, x) && x / PAGE_SIZE == page;
    }
  }

  /** A span is the pages a segment is on, and there is none exactly if one of them reaches 2^64. */
  lemma SpanIsPages(s: Segment)
    ensures PageSpan(s).Some? <==> BelowTop(s)
    ensures PageSpan(s).Some? ==>
              forall page: nat :: OnPage(s, page) <==> PageSpan(s).value.0 <= page * PAGE_SIZE < PageSpan(s).value.1
  {
    hide OnPage;
    var end := s.address + Max(s.memorySize, 1);
    var first, last := s.address / PAGE_SIZE, (end - 1) / PAGE_SIZE;
    assert PageUp(end) == (last + 1) * PAGE_SIZE;
    forall page: nat
      ensures OnPage(s, page) <==> first <= page <= last
    {
      PagesRun(s, page);
    }
    assert OnPage(s, last);
  }

  lemma CrossesExactly(s: Segment, t: Segment)
    requires PageSpan(s).Some? && PageSpan(t).Some?
    ensures Crosses(PageSpan(s).value, PageSpan(t).value) <==> SharesPage(s, t)
  {
    hide OnPage;
    SpanIsPages(s);
    SpanIsPages(t);
    var a, b := PageSpan(s).value, PageSpan(t).value;
    assert a.0 / PAGE_SIZE * PAGE_SIZE == a.0 && b.0 / PAGE_SIZE * PAGE_SIZE == b.0;
    if Crosses(a, b) {
      var page := (if a.0 < b.0 then b.0 else a.0) / PAGE_SIZE;
      SpanHasPages(s);
      SpanHasPages(t);
      assert OnPage(s, page) && OnPage(t, page);
    }
  }

  lemma SpanHasPages(s: Segment)
    requires PageSpan(s).Some?
    ensures PageSpan(s).value.0 < PageSpan(s).value.1
  {
  }

  /** No segment from `from` on reaches the top of the address space, and no two of them share a page. */
  ghost predicate Apart(segments: seq<Segment>, from: nat) {
    && (forall i | from <= i < |segments| :: BelowTop(segments[i]))
    && forall i, j | from <= i < j < |segments| :: !SharesPage(segments[i], segments[j])
  }

  lemma {:induction false} OverlapWithExact(segments: seq<Segment>, s: Segment, j: nat)
    requires j <= |segments| && PageSpan(s).Some?
    ensures OverlapWith(segments, PageSpan(s).value, j).None? <==>
              forall k | j <= k < |segments| :: BelowTop(segments[k]) && !SharesPage(s, segments[k])
    ensures OverlapWith(segments, PageSpan(s).value, j) == Some(SegmentsOverlap) ==>
              exists k | j <= k < |segments| :: SharesPage(s, segments[k])
    ensures OverlapWith(segments, PageSpan(s).value, j) in {None, Some(SegmentsOverlap), Some(SegmentOutsideUserSpace)}
    ensures OverlapWith(segments, PageSpan(s).value, j) == Some(SegmentOutsideUserSpace) ==>
              exists k | j <= k < |segments| :: !BelowTop(segments[k])
    decreases |segments| - j
  {
    hide PageSpan, Crosses, SharesPage, BelowTop;
    if j < |segments| {
      SpanIsPages(segments[j]);
      if PageSpan(segments[j]).Some? {
        CrossesExactly(s, segments[j]);
      }
      OverlapWithExact(segments, s, j + 1);
    }
  }

  /** Nothing is found wrong if and only if no page is shared and none reaches the top; and what is found is there. */
  lemma {:induction false} OverlapExact(segments: seq<Segment>, i: nat)
    requires i <= |segments|
    ensures Overlap(segments, i).None? <==> Apart(segments, i)
    ensures Overlap(segments, i) == Some(SegmentsOverlap) ==>
              exists k, j | i <= k < j < |segments| :: SharesPage(segments[k], segments[j])
    ensures Overlap(segments, i) in {None, Some(SegmentsOverlap), Some(SegmentOutsideUserSpace)}
    ensures Overlap(segments, i) == Some(SegmentOutsideUserSpace) ==> exists k | i <= k < |segments| :: !BelowTop(segments[k])
    decreases |segments| - i
  {
    hide PageSpan, OverlapWith, SharesPage, BelowTop;
    if i < |segments| {
      OverlapExact(segments, i + 1);
      SpanIsPages(segments[i]);
      if PageSpan(segments[i]).Some? {
        OverlapWithExact(segments, segments[i], i + 1);
      }
    }
  }

  /** Everything an acceptable file is, said without the parser. */
  ghost predicate WellFormed(bytes: Bytes, fileLen: nat, half: Half, image: Image) {
    && HEADER <= |bytes| <= fileLen
    && bytes[..4] == [0x7f, 0x45, 0x4c, 0x46] && bytes[4] == 2 && bytes[5] == 1
    && (Read(bytes, 16, 2) == 2 || (Read(bytes, 16, 2) == 3 && half == Kernel))
    && Read(bytes, 18, 2) == 0x3e
    && TableFits(TableOf(bytes), |bytes|)
    && var t := TableOf(bytes);
    && TableOk(bytes, fileLen, half, t, t.count)
    && image == Image(Read(bytes, 24, 8), Loads(bytes, t, t.count), LastDynamic(bytes, t, t.count))
    && image.segments != []
    && Apart(image.segments, 0)
    && exists i | 0 <= i < |image.segments| :: Contains(image.segments[i], image.entry)
  }

  lemma HoldsExactly(s: Segment, entry: nat)
    requires BelowTop(s)
    ensures Holds(s, entry) <==> Contains(s, entry)
  {
    SpanIsPages(s);
  }

  /** The parser accepts a file as an image exactly when the file is well formed and the image is its own. */
  lemma AcceptsExactly(bytes: Bytes, fileLen: nat, half: Half, image: Image)
    requires fileLen < U64
    ensures ParseHead(bytes, fileLen, half) == Ok(image) <==> WellFormed(bytes, fileLen, half, image)
  {
    hide ParseTable, TableOk, Loads, LastDynamic, Read, Overlap, PageSpan, Holds, Contains, BelowTop, SharesPage;
    if HEADER <= |bytes| <= fileLen && TableFits(TableOf(bytes), |bytes|) {
      var t := TableOf(bytes);
      TableExact(bytes, fileLen, half, t, t.count);
      if ParseTable(bytes, fileLen, half, t, t.count).Ok? {
        var segments := ParseTable(bytes, fileLen, half, t, t.count).value.segments;
        OverlapExact(segments, 0);
        if Apart(segments, 0) {
          forall i | 0 <= i < |segments|
            ensures Holds(segments[i], Read(bytes, 24, 8)) <==> Contains(segments[i], Read(bytes, 24, 8))
          {
            HoldsExactly(segments[i], Read(bytes, 24, 8));
          }
        }
      }
    }
  }

  // ----- refusal is for cause

  /** Some program header among the first `n` is of this kind and is not in order. */
  ghost predicate Faulty(bytes: Bytes, t: Table, n: nat, kind: nat, wrong: ProgramHeader -> bool)
    requires Fits(t, |bytes|) && n <= t.count
  {
    exists i | 0 <= i < n :: Nth(bytes, t, i).kind == kind && wrong(Nth(bytes, t, i))
  }

  /** What is wrong with the first `n` headers if they are refused for this reason. */
  ghost predicate TableWrong(bytes: Bytes, fileLen: nat, half: Half, t: Table, n: nat, e: ElfError)
    requires Fits(t, |bytes|) && n <= t.count
  {
    match e
    case BadProgramHeaders => Faulty(bytes, t, n, PT_DYNAMIC, (h: ProgramHeader) => h.offset + h.filesz > |bytes|)
    case SegmentOutsideFile => Faulty(bytes, t, n, PT_LOAD, (h: ProgramHeader) => h.offset + h.filesz > fileLen || h.memsz < h.filesz)
    case SegmentOutsideUserSpace => Faulty(bytes, t, n, PT_LOAD, (h: ProgramHeader) => Strays(h, half))
    case WriteAndExecute => Faulty(bytes, t, n, PT_LOAD, (h: ProgramHeader) => h.flags % 4 == 3)
    case TooManySegments => MAX_SEGMENTS < |Loads(bytes, t, n)|
    case _ => false
  }

  ghost predicate Strays(h: ProgramHeader, half: Half) {
    exists x: nat :: Occupies(SegmentOf(h), x) && (x >= U64 || HalfOf(x) != half)
  }

  lemma RefusedIsFaulty(h: ProgramHeader, held: nat, fileLen: nat, half: Half)
    requires held <= fileLen < U64 && Refused(h, held, fileLen, half).Some?
    ensures match Refused(h, held, fileLen, half).value
      case BadProgramHeaders => h.kind == PT_DYNAMIC && h.offset + h.filesz > held
      case SegmentOutsideFile => h.kind == PT_LOAD && (h.offset + h.filesz > fileLen || h.memsz < h.filesz)
      case SegmentOutsideUserSpace => h.kind == PT_LOAD && Strays(h, half)
      case WriteAndExecute => h.kind == PT_LOAD && h.flags % 4 == 3
      case _ => false
  {
    FlagBits(h.flags);
    OccupiesTo(SegmentOf(h));
  }

  lemma {:induction false} TableRefusedForCause(bytes: Bytes, fileLen: nat, half: Half, t: Table, n: nat)
    requires Fits(t, |bytes|) && n <= t.count && |bytes| <= fileLen < U64 && ParseTable(bytes, fileLen, half, t, n).Err?
    ensures TableWrong(bytes, fileLen, half, t, n, ParseTable(bytes, fileLen, half, t, n).error)
  {
    hide Nth, Refused, Strays, Writable, Executable;
    if ParseTable(bytes, fileLen, half, t, n - 1).Err? {
      TableRefusedForCause(bytes, fileLen, half, t, n - 1);
    } else {
      var h := Nth(bytes, t, n - 1);
      if Refused(h, |bytes|, fileLen, half).Some? {
        RefusedIsFaulty(h, |bytes|, fileLen, half);
      } else {
        TableExact(bytes, fileLen, half, t, n - 1);
      }
    }
  }

  /** What is wrong with a file refused for this reason. */
  ghost predicate Wrong(bytes: Bytes, fileLen: nat, half: Half, e: ElfError) {
    if |bytes| < HEADER || fileLen < |bytes| then e == Truncated
    else
      var t := TableOf(bytes);
      || (e == NotElf && bytes[..4] != [0x7f, 0x45, 0x4c, 0x46])
      || (e == WrongMachine && (bytes[4] != 2 || bytes[5] != 1 || Read(bytes, 18, 2) != 0x3e))
      || (e == NotExecutable && Read(bytes, 16, 2) != 2 && (half == User || Read(bytes, 16, 2) != 3))
      || (e == BadProgramHeaders && (t.entsize < PHENT || t.phoff + t.entsize * t.count > |bytes|))
      || (&& Fits(t, |bytes|)
          && (|| TableWrong(bytes, fileLen, half, t, t.count, e)
              || var segments := Loads(bytes, t, t.count);
                 || (e == NotExecutable && segments == [])
                 || (e == SegmentsOverlap && exists i, j | 0 <= i < j < |segments| :: SharesPage(segments[i], segments[j]))
                 || (e == SegmentOutsideUserSpace && exists i | 0 <= i < |segments| :: !BelowTop(segments[i]))
                 || (e == EntryOutsideImage && forall i | 0 <= i < |segments| :: !Contains(segments[i], Read(bytes, 24, 8)))))
  }

  /** A file is refused only for something that is wrong with it. */
  lemma RefusedForCause(bytes: Bytes, fileLen: nat, half: Half)
    requires fileLen < U64 && ParseHead(bytes, fileLen, half).Err?
    ensures Wrong(bytes, fileLen, half, ParseHead(bytes, fileLen, half).error)
  {
    hide ParseTable, TableOk, Loads, LastDynamic, Read, Overlap, Holds, Contains, BelowTop, SharesPage, TableWrong;
    if HEADER <= |bytes| <= fileLen && HeaderRefused(bytes, half).None? && TableFits(TableOf(bytes), |bytes|) {
      var t := TableOf(bytes);
      TableExact(bytes, fileLen, half, t, t.count);
      if ParseTable(bytes, fileLen, half, t, t.count).Err? {
        TableRefusedForCause(bytes, fileLen, half, t, t.count);
      } else {
        var segments := ParseTable(bytes, fileLen, half, t, t.count).value.segments;
        OverlapExact(segments, 0);
        if Apart(segments, 0) {
          forall i | 0 <= i < |segments|
            ensures Holds(segments[i], Read(bytes, 24, 8)) <==> Contains(segments[i], Read(bytes, 24, 8))
          {
            HoldsExactly(segments[i], Read(bytes, 24, 8));
          }
        }
      }
    }
  }
}
