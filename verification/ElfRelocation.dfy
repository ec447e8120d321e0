/** The relocation walk, and what an accepted image is safe to do with. */
module ElfRelocation {
  import opened Words
  import opened Elf
  import opened ElfTheorems

  const DT_RELA: nat := 7
  const DT_RELASZ: nat := 8
  const DT_RELAENT: nat := 9
  const R_RELATIVE: nat := 8
  const RELA: nat := 24

  // ----- accepted images

  lemma {:induction false} LoadsAreOk(bytes: Bytes, fileLen: nat, half: Half, t: Table, n: nat, i: nat)
    requires Fits(t, |bytes|) && n <= t.count && TableOk(bytes, fileLen, half, t, n) && i < |Loads(bytes, t, n)|
    ensures exists k | 0 <= k < n ::
              Nth(bytes, t, k).kind == PT_LOAD && Loads(bytes, t, n)[i] == SegmentOf(Nth(bytes, t, k)) && LoadOk(Nth(bytes, t, k), fileLen, half)
  {
    hide Nth, LoadOk;
    if n > 0 {
      var front := Loads(bytes, t, n - 1);
      if i < |front| {
        LoadsAreOk(bytes, fileLen, half, t, n - 1, i);
      } else {
        assert HeaderOk(Nth(bytes, t, n - 1), |bytes|, fileLen, half);
      }
    }
  }

  ghost predicate SpanInHalf(half: Half, span: (nat, nat)) {
    match half
    case User => span.1 <= KERNEL_HALF
    case Kernel => KERNEL_HALF <= span.0 && span.1 < U64
  }

  lemma SpanStays(h: ProgramHeader, half: Half)
    requires PageSpan(SegmentOf(h)).Some? && h.vaddr + Max(h.memsz, 1) <= U64
    requires InHalf(half, h.vaddr, h.vaddr + Max(h.memsz, 1) - 1)
    ensures SpanInHalf(half, PageSpan(SegmentOf(h)).value)
    ensures var span := PageSpan(SegmentOf(h)).value;
            span.0 <= h.vaddr && h.vaddr + h.memsz <= span.1 && span.0 % PAGE_SIZE == 0 && span.1 % PAGE_SIZE == 0
  {
  }

  /** Every segment of an accepted image lies in the file, on pages of its half, and is never writable and executable. */
  lemma AcceptedIsSafe(bytes: Bytes, fileLen: nat, half: Half, image: Image, i: nat)
    requires fileLen < U64 && ParseHead(bytes, fileLen, half) == Ok(image) && i < |image.segments|
    ensures var s := image.segments[i];
            && s.fileOffset + s.fileSize <= fileLen && s.fileSize <= s.memorySize
            && PageSpan(s).Some? && SpanInHalf(half, PageSpan(s).value)
            && PageSpan(s).value.0 <= s.address && s.address + s.memorySize <= PageSpan(s).value.1
            && (s.protection == ReadOnly <==> s.flags % 4 == 0) && (s.protection == ReadExecute <==> s.flags % 4 == 1)
            && (s.protection == ReadWrite <==> s.flags % 4 == 2)
  {
    hide ParseHead, TableOk, Loads, LastDynamic, Read, PageSpan, Holds, Nth, InHalf, BelowTop, SharesPage, LoadOk;
    AcceptsExactly(bytes, fileLen, half, image);
    var t := TableOf(bytes);
    LoadsAreOk(bytes, fileLen, half, t, t.count, i);
    var k :| 0 <= k < t.count && Nth(bytes, t, k).kind == PT_LOAD
             && image.segments[i] == SegmentOf(Nth(bytes, t, k)) && LoadOk(Nth(bytes, t, k), fileLen, half);
    SpanIsPages(image.segments[i]);
    LoadOkMeans(Nth(bytes, t, k), fileLen, half);
    FlagBits(Nth(bytes, t, k).flags);
    SpanStays(Nth(bytes, t, k), half);
  }

  // ----- where the relocations are

  /** Which pair of the dynamic table ends it: the first null one or its size; `None` if the bytes end first. */
  function Terminator(bytes: Bytes, offset: nat, n: nat, at: nat): (k: Option<nat>)
    requires at <= n && offset + 16 * at <= |bytes|
    ensures k.Some? ==> at <= k.value <= n && offset + 16 * k.value <= |bytes|
    ensures k.Some? ==> forall j | at <= j < k.value :: Read(bytes, offset + 16 * j, 8) != 0
    ensures k.Some? && k.value < n ==> offset + 16 * k.value + 16 <= |bytes| && Read(bytes, offset + 16 * k.value, 8) == 0
    decreases n - at
  {
    if at == n then Some(n)
    else if offset + 16 * at + 16 > |bytes| then None
    else if Read(bytes, offset + 16 * at, 8) == 0 then Some(at)
    else Terminator(bytes, offset, n, at + 1)
  }

  /** The value the last of the first `n` pairs with this tag gives. */
  function Tagged(bytes: Bytes, offset: nat, n: nat, tag: nat): Option<nat>
    requires n > 0 ==> offset + 16 * n <= |bytes|
  {
    if n == 0 then None
    else if Read(bytes, offset + 16 * (n - 1), 8) == tag then Some(Read(bytes, offset + 16 * (n - 1) + 8, 8))
    else Tagged(bytes, offset, n - 1, tag)
  }

  /** The file offset an address range lives at, through the segments from `i` on. */
  function FileOffsetFrom(segments: seq<Segment>, address: nat, length: nat, i: nat): Option<nat>
    requires i <= |segments|
    decreases |segments| - i
  {
    if i == |segments| then None
    else
      var s := segments[i];
      if s.address + s.fileSize >= U64 then None
      else if address < s.address then FileOffsetFrom(segments, address, length, i + 1)
      else if address + length >= U64 then None
      else if address + length <= s.address + s.fileSize then Some(s.fileOffset + (address - s.address))
      else FileOffsetFrom(segments, address, length, i + 1)
  }

  method FileOffsetOf(image: Image, address: nat, length: nat) returns (r: Option<nat>)
    ensures r == FileOffsetFrom(image.segments, address, length, 0)
  {
    for i := 0 to |image.segments|
      invariant FileOffsetFrom(image.segments, address, length, 0) == FileOffsetFrom(image.segments, address, length, i)
    {
      var s := image.segments[i];
      if s.address + s.fileSize >= U64 {
        return None;
      }
      if address >= s.address {
        if address + length >= U64 {
          return None;
        }
        if address + length <= s.address + s.fileSize {
          return Some(s.fileOffset + (address - s.address));
        }
      }
    }
    return None;
  }

  /** A range found in the file lies in one segment's contents, byte for byte. */
  lemma {:induction false} FileOffsetMeans(segments: seq<Segment>, address: nat, length: nat, i: nat)
    requires i <= |segments| && FileOffsetFrom(segments, address, length, i).Some?
    ensures exists k | i <= k < |segments| ::
              var s := segments[k];
              s.address <= address && address + length <= s.address + s.fileSize
              && FileOffsetFrom(segments, address, length, i).value == s.fileOffset + (address - s.address)
    decreases |segments| - i
  {
    var s := segments[i];
    if address < s.address || address + length > s.address + s.fileSize {
      FileOffsetMeans(segments, address, length, i + 1);
    }
  }

  // ----- the walk

  /** All eight bytes at `target` lie in one segment's memory. */
  predicate Inside(segments: seq<Segment>, target: nat) {
    exists i | 0 <= i < |segments| :: Covered(segments[i], target)
  }

  predicate Covered(s: Segment, target: nat) {
    s.address <= target && target + 8 < U64
    && target + 8 <= (if s.address + s.memorySize < U64 then s.address + s.memorySize else U64 - 1)
  }

  /** The eight addresses from `target` on are one segment's, and end below 2^64. */
  ghost predicate Eight(segments: seq<Segment>, target: nat) {
    target + 8 < U64 && exists i | 0 <= i < |segments| :: EightIn(segments[i], target)
  }

  ghost predicate EightIn(s: Segment, target: nat) {
    forall x: nat | target <= x < target + 8 :: Contains(s, x)
  }

  lemma CoveredExactly(s: Segment, target: nat)
    ensures Covered(s, target) <==> target + 8 < U64 && EightIn(s, target)
  {
    if EightIn(s, target) {
      assert Contains(s, target) && Contains(s, target + 7);
    }
  }

  lemma InsideExactly(segments: seq<Segment>, target: nat)
    ensures Inside(segments, target) <==> Eight(segments, target)
  {
    hide Covered, EightIn;
    forall i | 0 <= i < |segments|
      ensures Covered(segments[i], target) <==> target + 8 < U64 && EightIn(segments[i], target)
    {
      CoveredExactly(segments[i], target);
    }
  }

  /** The number a 64-bit word spells in two's complement. */
  function Signed(n: nat): (r: int)
    requires n < U64
    ensures -(U64 / 2) <= r < U64 / 2 && (r - n) % U64 == 0
  {
    if n < U64 / 2 then n else n - U64
  }

  /** Entry `i` of a relocation table. */
  function RelaAt(bytes: Bytes, table: nat, i: nat): (nat, int)
    requires table + RELA * (i + 1) <= |bytes|
  {
    Spans();
    (Read(bytes, table + RELA * i, 8), Signed(Read(bytes, table + RELA * i + 16, 8)))
  }

  /** Entry `i` is there, is relative, and the eight addresses it writes are one segment's. */
  ghost predicate Good(bytes: Bytes, segments: seq<Segment>, table: nat, i: nat) {
    && table + RELA * (i + 1) <= |bytes|
    && Read(bytes, table + RELA * i + 8, 8) % U32 == R_RELATIVE
    && Eight(segments, Read(bytes, table + RELA * i, 8))
  }

  /** Where the walk finds its table: nothing to do, a table and its length, or a refusal. */
  function Relocations(bytes: Bytes, image: Image): Result<Option<(nat, nat)>, ElfError> {
    if image.dynamic.None? then Ok(None)
    else
      var (offset, size) := image.dynamic.value;
      var end := if offset <= |bytes| then Terminator(bytes, offset, size / 16, 0) else if size < 16 then Some(0) else None;
      if end.None? then Err(UnsupportedRelocation)
      else
        var k := end.value;
        var address, length := Tagged(bytes, offset, k, DT_RELA), Tagged(bytes, offset, k, DT_RELASZ);
        var entry := Tagged(bytes, offset, k, DT_RELAENT);
        if address.None? || length.None? then Ok(None)
        else if entry.Some? && entry.value != RELA then Err(UnsupportedRelocation)
        else if length.value % RELA != 0 then Err(UnsupportedRelocation)
        else
          var table := FileOffsetFrom(image.segments, address.value, length.value, 0);
          if table.None? then Err(UnsupportedRelocation) else Ok(Some((table.value, length.value / RELA)))
  }

  /** Scans the dynamic table for where the relocations are. */
  method FindRelocations(bytes: Bytes, image: Image) returns (r: Result<Option<(nat, nat)>, ElfError>)
    ensures r == Relocations(bytes, image)
  {
    hide Read;
    if image.dynamic.None? {
      return Ok(None);
    }
    var (offset, size) := image.dynamic.value;
    var address: Option<nat>, length: Option<nat>, entry: Option<nat> := None, None, None;
    var at, stopped := 0, false;
    while at < size / 16 && !stopped
      invariant at <= size / 16 && (at > 0 ==> offset + 16 * at <= |bytes|)
      invariant offset <= |bytes| ==> Terminator(bytes, offset, size / 16, 0) == Terminator(bytes, offset, size / 16, at)
      invariant stopped ==> offset <= |bytes| && Terminator(bytes, offset, size / 16, at) == Some(at)
      invariant address == Tagged(bytes, offset, at, DT_RELA) && length == Tagged(bytes, offset, at, DT_RELASZ)
      invariant entry == Tagged(bytes, offset, at, DT_RELAENT)
      decreases size / 16 - at, !stopped
    {
      if offset + 16 * at + 16 > |bytes| {
        return Err(UnsupportedRelocation);
      }
      var tag, value := Read(bytes, offset + 16 * at, 8), Read(bytes, offset + 16 * at + 8, 8);
      if tag == 0 {
        stopped := true;
      } else {
        if tag == DT_RELA {
          address := Some(value);
        } else if tag == DT_RELASZ {
          length := Some(value);
        } else if tag == DT_RELAENT {
          entry := Some(value);
        }
        at := at + 1;
      }
    }
    if address.None? || length.None? {
      return Ok(None);
    }
    if (if entry.Some? then entry.value else RELA) != RELA {
      return Err(UnsupportedRelocation);
    }
    if length.value % RELA != 0 {
      return Err(UnsupportedRelocation);
    }
    var table := FileOffsetOf(image, address.value, length.value);
    return if table.None? then Err(UnsupportedRelocation) else Ok(Some((table.value, length.value / RELA)));
  }

  /**
   Walks the relocations, applying each as it is met. On success every entry of the
   table was applied, once, in order, all eight bytes inside one segment. On a refusal
   exactly the good entries before the first bad one were applied: nothing was if and
   only if no table was found or its first entry is bad.
   */
  method ForEachRelative(bytes: Bytes, image: Image) returns (r: Result<nat, ElfError>, applied: seq<(nat, int)>)
    ensures r.Err? ==> r.error == UnsupportedRelocation
    ensures Relocations(bytes, image).Err? ==> r.Err? && applied == []
    ensures Relocations(bytes, image) == Ok(None) ==> r == Ok(0) && applied == []
    ensures Relocations(bytes, image).Ok? && Relocations(bytes, image).value.Some? ==>
              var (table, count) := Relocations(bytes, image).value.value;
              && (forall i | 0 <= i < |applied| :: Good(bytes, image.segments, table, i) && applied[i] == RelaAt(bytes, table, i))
              && (r.Ok? ==> r.value == count == |applied|)
              && (r.Err? ==> |applied| < count && !Good(bytes, image.segments, table, |applied|))
              && (r.Err? ==> (applied == [] <==> !Good(bytes, image.segments, table, 0)))
  {
    hide Read, Relocations, Inside, Eight;
    applied := [];
    var found := FindRelocations(bytes, image);
    if found.Err? {
      return Err(UnsupportedRelocation), [];
    }
    if found.value.None? {
      return Ok(0), [];
    }
    var (table, count) := found.value.value;
    for index := 0 to count
      invariant |applied| == index
      invariant forall i | 0 <= i < index :: Good(bytes, image.segments, table, i) && applied[i] == RelaAt(bytes, table, i)
    {
      var at := table + index * RELA;
      if at + RELA > |bytes| {
        return Err(UnsupportedRelocation), applied;
      }
      var target, info := Read(bytes, at, 8), Read(bytes, at + 8, 8);
      if info % U32 != R_RELATIVE {
        return Err(UnsupportedRelocation), applied;
      }
      var inside := InsideOne(image.segments, target);
      InsideExactly(image.segments, target);
      if !inside {
        return Err(UnsupportedRelocation), applied;
      }
      Spans();
      applied := applied + [(target, Signed(Read(bytes, at + 16, 8)))];
    }
    return Ok(count), applied;
  }

  method InsideOne(segments: seq<Segment>, target: nat) returns (inside: bool)
    ensures inside <==> Inside(segments, target)
  {
    for i := 0 to |segments|
      invariant forall j | 0 <= j < i :: !Covered(segments[j], target)
    {
      if Covered(segments[i], target) {
        return true;
      }
    }
    return false;
  }
}
