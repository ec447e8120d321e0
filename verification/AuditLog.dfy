/** The audit log as it is kept, and the check that it was not quietly edited. */
module AuditLog {
  import opened Words

  const RECORD_BYTES: nat := 64
  const LINK_BYTES: nat := 32
  const ENTRY_BYTES: nat := RECORD_BYTES + 2 * LINK_BYTES
  const ATTACH: nat := 1
  const GAP: nat := 2

  type Record = r: Bytes | |r| == RECORD_BYTES witness Zeros(RECORD_BYTES)
  type Link = l: Bytes | |l| == LINK_BYTES witness Zeros(LINK_BYTES)

  /** The hash function: any function at all. */
  type Hash = Bytes -> Link

  const GENESIS: Link := Zeros(LINK_BYTES)
  const LABEL: Bytes := [0x42, 0x48, 0x58, 0x41, 0x55, 0x44, 0x49, 0x54]

  /** What a link is the hash of. */
  function Linked(previous: Link, record: Record): Bytes {
    LABEL + previous + record
  }

  function LinkOf(hash: Hash, previous: Link, record: Record): Link {
    hash(Linked(previous, record))
  }

  datatype Entry = Entry(record: Record, previous: Link, link: Link)

  function ToBytes(e: Entry): (x: Bytes)
    ensures |x| == ENTRY_BYTES
  {
    e.record + e.previous + e.link
  }

  function FromBytes(x: Bytes): (e: Entry)
    requires |x| == ENTRY_BYTES
    ensures ToBytes(e) == x
  {
    Entry(x[..RECORD_BYTES], x[RECORD_BYTES..RECORD_BYTES + LINK_BYTES], x[RECORD_BYTES + LINK_BYTES..])
  }

  // ----- what a record says

  function Sequence(r: Record): nat { At(r, 0, 8).value }
  function Kind(r: Record): nat { r[16] }
  function Count(r: Record): nat { At(r, 36, 4).value }
  function Subject(r: Record): nat { At(r, 40, 8).value }
  function Source(r: Record): nat { At(r, 48, 8).value }

  // ----- the writer

  class Chain {
    var head: Link
    var records: nat

    constructor ()
      ensures head == GENESIS && records == 0
    {
      head, records := GENESIS, 0;
    }

    method Append(hash: Hash, record: Record) returns (e: Entry)
      modifies this
      ensures e == Entry(record, old(head), LinkOf(hash, old(head), record))
      ensures head == e.link && records == old(records) + 1
    {
      var previous := head;
      head := LinkOf(hash, previous, record);
      records := records + 1;
      e := Entry(record, previous, head);
    }
  }

  // ----- a kept log, entry by entry

  function Entries(log: Bytes): nat {
    |log| / ENTRY_BYTES
  }

  function Cut(log: Bytes, i: nat): (x: Bytes)
    requires i < Entries(log)
    ensures |x| == ENTRY_BYTES
  {
    log[i * ENTRY_BYTES..(i + 1) * ENTRY_BYTES]
  }

  function EntryAt(log: Bytes, i: nat): Entry
    requires i < Entries(log)
  {
    FromBytes(Cut(log, i))
  }

  /** The link the first `i` records compute to. */
  function HeadAt(hash: Hash, log: Bytes, i: nat): Link
    requires i <= Entries(log)
  {
    if i == 0 then GENESIS else LinkOf(hash, HeadAt(hash, log, i - 1), EntryAt(log, i - 1).record)
  }

  /** Entry `i` carries the link before it, its own link, and its place; the first is an attach record. */
  predicate Sound(hash: Hash, log: Bytes, i: nat)
    requires i < Entries(log)
  {
    var e := EntryAt(log, i);
    && e.previous == HeadAt(hash, log, i)
    && e.link == LinkOf(hash, e.previous, e.record)
    && Sequence(e.record) == i
    && (i == 0 ==> Kind(e.record) == ATTACH)
  }

  predicate AllSound(hash: Hash, log: Bytes, n: nat)
    requires n <= Entries(log)
  {
    forall i | 0 <= i < n :: Sound(hash, log, i)
  }

  predicate Accepts(hash: Hash, log: Bytes) {
    |log| % ENTRY_BYTES == 0 && AllSound(hash, log, Entries(log))
  }

  /** Operations the kernel could not record, over the first `n` entries. */
  function Gaps(log: Bytes, n: nat): nat
    requires n <= Entries(log)
  {
    if n <= 1 then 0
    else Gaps(log, n - 1) + var r := EntryAt(log, n - 1).record; if Kind(r) == GAP then Count(r) else 0
  }

  datatype Verified = Verified(records: nat, head: Link, boot: (nat, nat), gaps: nat, before: nat)

  datatype Break =
    | Torn(bytes: nat)
    | Previous(index: nat)
    | BadLink(index: nat)
    | BadSequence(index: nat, found: nat)
    | NoAttach

  function Summary(hash: Hash, log: Bytes): Verified {
    var n := Entries(log);
    var first := if n == 0 then (0, 0, 0) else var r := EntryAt(log, 0).record; (Subject(r), Source(r), Count(r));
    Verified(n, HeadAt(hash, log, n), (first.0, first.1), Gaps(log, n), first.2)
  }

  /** Where a break says the log stops being sound. */
  function BreaksAt(b: Break, log: Bytes): nat {
    match b
    case Torn(_) => Entries(log)
    case Previous(i) => i
    case BadLink(i) => i
    case BadSequence(i, _) => i
    case NoAttach => 0
  }

  /** The entry named is wrong in the way named, and right in the ways checked before it. */
  ghost predicate Names(hash: Hash, log: Bytes, b: Break) {
    match b
    case Torn(bytes) => bytes == |log| % ENTRY_BYTES && bytes != 0
    case Previous(i) => i < Entries(log) && EntryAt(log, i).previous != HeadAt(hash, log, i)
    case BadLink(i) =>
      && i < Entries(log)
      && var e := EntryAt(log, i);
      && e.previous == HeadAt(hash, log, i) && e.link != LinkOf(hash, e.previous, e.record)
    case BadSequence(i, found) =>
      && i < Entries(log)
      && var e := EntryAt(log, i);
      && e.previous == HeadAt(hash, log, i) && e.link == LinkOf(hash, e.previous, e.record)
      && found == Sequence(e.record) != i
    case NoAttach =>
      && 0 < Entries(log)
      && var e := EntryAt(log, 0);
      && e.previous == GENESIS && e.link == LinkOf(hash, e.previous, e.record)
      && Sequence(e.record) == 0 && Kind(e.record) != ATTACH
  }

  /** Checks a kept log, and names the first entry that breaks it. */
  method Verify(hash: Hash, log: Bytes) returns (r: Result<Verified, Break>)
    ensures r.Ok? <==> Accepts(hash, log)
    ensures r.Ok? ==> r.value == Summary(hash, log)
    ensures r.Err? ==> Names(hash, log, r.error) && AllSound(hash, log, BreaksAt(r.error, log))
  {
    hide At, LinkOf, FromBytes;
    var chain := new Chain();
    var boot, gaps, before := (0, 0), 0, 0;
    for index := 0 to Entries(log)
      invariant chain.records == index && chain.head == HeadAt(hash, log, index) && AllSound(hash, log, index)
      invariant gaps == Gaps(log, index)
      invariant index > 0 ==> boot == (Subject(EntryAt(log, 0).record), Source(EntryAt(log, 0).record))
      invariant index > 0 ==> before == Count(EntryAt(log, 0).record)
      invariant index == 0 ==> boot == (0, 0) && before == 0
    {
      var e := EntryAt(log, index);
      ghost var sound := Sound(hash, log, index);
      if e.previous != chain.head {
        return Err(Previous(index));
      }
      if LinkOf(hash, e.previous, e.record) != e.link {
        return Err(BadLink(index));
      }
      if Sequence(e.record) != index {
        return Err(BadSequence(index, Sequence(e.record)));
      }
      if index == 0 {
        if Kind(e.record) != ATTACH {
          return Err(NoAttach);
        }
        boot, before := (Subject(e.record), Source(e.record)), Count(e.record);
      } else if Kind(e.record) == GAP {
        gaps := gaps + Count(e.record);
      }
      var _ := chain.Append(hash, e.record);
    }
    if |log| % ENTRY_BYTES != 0 {
      return Err(Torn(|log| % ENTRY_BYTES));
    }
    return Ok(Verified(chain.records, chain.head, boot, gaps, before));
  }

  // ----- tamper evidence

  lemma LinkedTells(p: Link, r: Record, q: Link, s: Record)
    requires Linked(p, r) == Linked(q, s)
    ensures p == q && r == s
  {
    assert p == Linked(p, r)[8..40] && r == Linked(p, r)[40..];
    assert q == Linked(q, s)[8..40] && s == Linked(q, s)[40..];
  }

  /** In an accepted log every entry is its record between two heads. */
  lemma EntryIs(hash: Hash, log: Bytes, i: nat)
    requires Accepts(hash, log) && i < Entries(log)
    ensures EntryAt(log, i) == Entry(EntryAt(log, i).record, HeadAt(hash, log, i), HeadAt(hash, log, i + 1))
    ensures Sequence(EntryAt(log, i).record) == i
  {
    assert Sound(hash, log, i);
  }

  /** What entry `i`'s link is the hash of. */
  function InputAt(hash: Hash, log: Bytes, i: nat): Bytes
    requires i < Entries(log)
  {
    Linked(HeadAt(hash, log, i), EntryAt(log, i).record)
  }

  /** Entry `i` of one log and entry `j` of the other are linked by hashing different inputs alike. */
  ghost predicate Clash(hash: Hash, a: Bytes, i: nat, b: Bytes, j: nat) {
    && i < Entries(a) && j < Entries(b)
    && InputAt(hash, a, i) != InputAt(hash, b, j) && hash(InputAt(hash, a, i)) == hash(InputAt(hash, b, j))
  }

  /** Equal heads after equally many records: equal entries all the way back, or two entries that clash. */
  lemma {:induction false} SameHeadSameEntries(hash: Hash, a: Bytes, b: Bytes, n: nat) returns (i: nat)
    requires Accepts(hash, a) && Accepts(hash, b) && n <= Entries(a) && n <= Entries(b)
    requires HeadAt(hash, a, n) == HeadAt(hash, b, n)
    ensures (i < n && Clash(hash, a, i, b, i)) || forall k | 0 <= k < n :: EntryAt(a, k) == EntryAt(b, k)
  {
    hide At, EntryAt, Accepts;
    if n == 0 {
      return 0;
    }
    if InputAt(hash, a, n - 1) != InputAt(hash, b, n - 1) {
      return n - 1;
    }
    LinkedTells(HeadAt(hash, a, n - 1), EntryAt(a, n - 1).record, HeadAt(hash, b, n - 1), EntryAt(b, n - 1).record);
    EntryIs(hash, a, n - 1);
    EntryIs(hash, b, n - 1);
    i := SameHeadSameEntries(hash, a, b, n - 1);
  }

  /** Whole logs that agree entry by entry are the same bytes. */
  lemma EntriesTell(a: Bytes, b: Bytes)
    requires |a| == |b| && |a| % ENTRY_BYTES == 0 && forall i | 0 <= i < Entries(a) :: EntryAt(a, i) == EntryAt(b, i)
    ensures a == b
  {
    hide EntryAt, ToBytes;
    forall k | 0 <= k < |a|
      ensures a[k] == b[k]
    {
      EntryByte(a, k);
      EntryByte(b, k);
    }
  }

  /** Every byte of a whole log is a byte of one entry. */
  lemma EntryByte(log: Bytes, k: nat)
    requires |log| % ENTRY_BYTES == 0 && k < |log|
    ensures k / ENTRY_BYTES < Entries(log) && log[k] == ToBytes(EntryAt(log, k / ENTRY_BYTES))[k % ENTRY_BYTES]
  {
    hide FromBytes, ToBytes;
    var i, j := k / ENTRY_BYTES, k % ENTRY_BYTES;
    assert i * ENTRY_BYTES + j == k;
    assert Cut(log, i)[j] == log[i * ENTRY_BYTES + j];
  }

  /**
   Tamper evidence: two different logs that are both accepted with the same head have two
   entries that clash; or, if one is empty, the other's last entry hashes to the value a
   chain begins with. Equal record counts need not be assumed: the last record carries
   its place.
   */
  lemma TamperEvidence(hash: Hash, a: Bytes, b: Bytes) returns (i: nat, j: nat)
    requires Accepts(hash, a) && Accepts(hash, b) && a != b
    requires HeadAt(hash, a, Entries(a)) == HeadAt(hash, b, Entries(b))
    ensures 0 < Entries(a) && 0 < Entries(b) ==> Clash(hash, a, i, b, j)
    ensures Entries(b) == 0 ==> i < Entries(a) && hash(InputAt(hash, a, i)) == GENESIS
    ensures Entries(a) == 0 ==> j < Entries(b) && hash(InputAt(hash, b, j)) == GENESIS
  {
    hide At, EntryAt, Accepts;
    AcceptsWhole(hash, a);
    AcceptsWhole(hash, b);
    var m, n := Entries(a), Entries(b);
    if m == n {
      i := SameHeadSameEntries(hash, a, b, n);
      j := i;
      if forall k | 0 <= k < n :: EntryAt(a, k) == EntryAt(b, k) {
        EntriesTell(a, b);
      }
    } else {
      i, j := if m == 0 then 0 else m - 1, if n == 0 then 0 else n - 1;
      if 0 < m && 0 < n {
        EntryIs(hash, a, i);
        EntryIs(hash, b, j);
        if InputAt(hash, a, i) == InputAt(hash, b, j) {
          LinkedTells(HeadAt(hash, a, i), EntryAt(a, i).record, HeadAt(hash, b, j), EntryAt(b, j).record);
        }
      }
    }
  }

  lemma AcceptsWhole(hash: Hash, log: Bytes)
    requires Accepts(hash, log)
    ensures |log| == Entries(log) * ENTRY_BYTES
  {
  }

  // ----- what the writer writes

  /** The head after appending `records` in order. */
  function ChainHead(hash: Hash, records: seq<Record>): Link {
    if records == [] then GENESIS else LinkOf(hash, ChainHead(hash, records[..|records| - 1]), records[|records| - 1])
  }

  /** The bytes kept for `records`: each append's entry, end to end. */
  function LogOf(hash: Hash, records: seq<Record>): (log: Bytes)
    ensures |log| == |records| * ENTRY_BYTES
  {
    if records == [] then []
    else
      var front, last := records[..|records| - 1], records[|records| - 1];
      LogOf(hash, front) + ToBytes(Entry(last, ChainHead(hash, front), ChainHead(hash, records)))
  }

  /** Appending records one by one keeps exactly that log, and leaves the chain at its head. */
  method WriteLog(hash: Hash, records: seq<Record>) returns (log: Bytes, chain: Chain)
    ensures log == LogOf(hash, records) && fresh(chain)
    ensures chain.head == ChainHead(hash, records) && chain.records == |records|
  {
    hide LinkOf, ToBytes;
    chain := new Chain();
    log := [];
    for i := 0 to |records|
      invariant log == LogOf(hash, records[..i]) && fresh(chain)
      invariant chain.head == ChainHead(hash, records[..i]) && chain.records == i
    {
      assert records[..i + 1][..i] == records[..i];
      var e := chain.Append(hash, records[i]);
      log := log + ToBytes(e);
    }
    assert records[..|records|] == records;
  }

  lemma {:induction false} LogEntry(hash: Hash, records: seq<Record>, i: nat)
    requires i < |records|
    ensures Entries(LogOf(hash, records)) == |records|
    ensures EntryAt(LogOf(hash, records), i) ==
              Entry(records[i], ChainHead(hash, records[..i]), ChainHead(hash, records[..i + 1]))
  {
    hide ChainHead, LogOf, FromBytes, ToBytes, Cut;
    var front, n := records[..|records| - 1], |records| - 1;
    var e := Entry(records[n], ChainHead(hash, front), ChainHead(hash, records));
    LogGrows(hash, records);
    CutAppend(LogOf(hash, front), ToBytes(e), n, i);
    if i < n {
      LogEntry(hash, front, i);
      assert records[..i] == front[..i] && records[..i + 1] == front[..i + 1];
    } else {
      assert records[..i] == front && records[..i + 1] == records;
      BytesRoundTrip(e);
    }
  }

  lemma LogGrows(hash: Hash, records: seq<Record>)
    requires records != []
    ensures var front, n := records[..|records| - 1], |records| - 1;
            LogOf(hash, records) == LogOf(hash, front) + ToBytes(Entry(records[n], ChainHead(hash, front), ChainHead(hash, records)))
  {
  }

  /** Entry `i` of a log and one more entry. */
  lemma CutAppend(log: Bytes, x: Bytes, n: nat, i: nat)
    requires |log| == n * ENTRY_BYTES && |x| == ENTRY_BYTES && i <= n
    ensures Entries(log + x) == n + 1 && Entries(log) == n
    ensures Cut(log + x, i) == if i < n then Cut(log, i) else x
  {
  }

  lemma BytesRoundTrip(e: Entry)
    ensures FromBytes(ToBytes(e)) == e
  {
    var x := ToBytes(e);
    assert x[..64] == e.record && x[64..96] == e.previous && x[96..] == e.link;
  }

  lemma {:induction false} LogHead(hash: Hash, records: seq<Record>, i: nat)
    requires i <= |records|
    ensures i <= Entries(LogOf(hash, records)) && HeadAt(hash, LogOf(hash, records), i) == ChainHead(hash, records[..i])
  {
    hide EntryAt;
    if i > 0 {
      LogHead(hash, records, i - 1);
      LogEntry(hash, records, i - 1);
      assert records[..i][..i - 1] == records[..i - 1];
    }
  }

  /** Every log written in sequence from an attach record is accepted, with the writer's head. */
  lemma WrittenVerifies(hash: Hash, records: seq<Record>)
    requires forall i | 0 <= i < |records| :: Sequence(records[i]) == i
    requires records != [] ==> Kind(records[0]) == ATTACH
    ensures Accepts(hash, LogOf(hash, records))
    ensures Entries(LogOf(hash, records)) == |records|
    ensures HeadAt(hash, LogOf(hash, records), |records|) == ChainHead(hash, records)
  {
    hide At, LinkOf, EntryAt, LogOf, HeadAt, ChainHead, Sound;
    var log := LogOf(hash, records);
    forall i | 0 <= i < |records|
      ensures i < Entries(log) && Sound(hash, log, i)
    {
      WrittenSound(hash, records, i);
    }
    LogHead(hash, records, |records|);
    assert records[..|records|] == records;
  }

  lemma WrittenSound(hash: Hash, records: seq<Record>, i: nat)
    requires i < |records|
    ensures i < Entries(LogOf(hash, records))
    ensures Sound(hash, LogOf(hash, records), i) <==> Sequence(records[i]) == i && (i == 0 ==> Kind(records[0]) == ATTACH)
  {
    hide At, LinkOf, EntryAt, LogOf, HeadAt, ChainHead;
    LogEntry(hash, records, i);
    LogHead(hash, records, i);
    ChainStep(hash, records, i);
  }

  lemma ChainStep(hash: Hash, records: seq<Record>, i: nat)
    requires i < |records|
    ensures ChainHead(hash, records[..i + 1]) == LinkOf(hash, ChainHead(hash, records[..i]), records[i])
  {
    assert records[..i + 1][..i] == records[..i];
  }

  lemma PrefixCut(log: Bytes, n: nat, i: nat)
    requires i < n <= Entries(log)
    ensures Entries(log[..n * ENTRY_BYTES]) == n && EntryAt(log[..n * ENTRY_BYTES], i) == EntryAt(log, i)
  {
    hide FromBytes;
    assert Cut(log[..n * ENTRY_BYTES], i) == Cut(log, i);
  }

  /** A sound prefix is an accepted log of its own. */
  lemma PrefixVerifies(hash: Hash, log: Bytes, n: nat)
    requires n <= Entries(log) && AllSound(hash, log, n)
    ensures Accepts(hash, log[..n * ENTRY_BYTES])
  {
    hide At, LinkOf, EntryAt, HeadAt;
    var front := log[..n * ENTRY_BYTES];
    assert Entries(front) == n;
    forall i | 0 <= i < n
      ensures Sound(hash, front, i)
    {
      PrefixHead(hash, log, n, i);
      PrefixCut(log, n, i);
      assert Sound(hash, log, i);
    }
  }

  lemma {:induction false} PrefixHead(hash: Hash, log: Bytes, n: nat, i: nat)
    requires i <= n <= Entries(log)
    ensures Entries(log[..n * ENTRY_BYTES]) == n
    ensures HeadAt(hash, log[..n * ENTRY_BYTES], i) == HeadAt(hash, log, i)
  {
    hide EntryAt;
    if i > 0 {
      PrefixHead(hash, log, n, i - 1);
      PrefixCut(log, n, i - 1);
    }
  }
}
