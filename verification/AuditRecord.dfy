/** What an audit record says, field by field, and what a log written from records says of them. */
module AuditRecords {
  import opened Words
  import opened Packing
  import opened AuditLog

  datatype Name = Name(domain: nat, generation: nat)

  datatype Fact = Fact(sequence: nat, timestamp: nat, kind: nat, objectKind: nat, rights: nat, actor: Name, target: Name, count: nat,
                       subject: nat, source: nat, thing: nat)

  /** The fields of a record in the order they are kept; one byte is not used. */
  function Row(f: Fact): (row: seq<Item>)
    ensures |row| == 14
  {
    [Item(8, f.sequence), Item(8, f.timestamp), Item(1, f.kind), Item(1, f.objectKind), Item(1, f.rights), Item(1, 0),
     Item(4, f.actor.domain), Item(4, f.actor.generation), Item(4, f.target.domain), Item(4, f.target.generation),
     Item(4, f.count), Item(8, f.subject), Item(8, f.source), Item(8, f.thing)]
  }

  lemma RowSizes(f: Fact)
    ensures Size(Row(f)) == RECORD_BYTES && Size(Row(f)[..0]) == 0 && Size(Row(f)[..2]) == 16 && Size(Row(f)[..10]) == 36
    ensures Size(Row(f)[..11]) == 40 && Size(Row(f)[..12]) == 48
  {
    var row := Row(f);
    SizesRun(row);
    hide Size;
    assert row[0].width == 8 && row[1].width == 8 && row[2].width == 1 && row[3].width == 1 && row[4].width == 1 && row[5].width == 1 && row[6].width == 4;
    assert row[7].width == 4 && row[8].width == 4 && row[9].width == 4 && row[10].width == 4 && row[11].width == 8 && row[12].width == 8 && row[13].width == 8;
    assert row[..14] == row;
  }

  function Kept(f: Fact): Record {
    RowSizes(f);
    Packed(Row(f))
  }

  /** A record reads back as what was kept. */
  lemma KeptReads(f: Fact)
    requires Fit(Row(f))
    ensures var r := Kept(f);
      && Sequence(r) == f.sequence && Kind(r) == f.kind && Count(r) == f.count && Subject(r) == f.subject && Source(r) == f.source
  {
    hide Packed, Size, At, Span;
    var row, bytes := Row(f), Kept(f);
    RowSizes(f);
    assert bytes[0..0 + Size(row)] == Packed(row);
    PackedReads(bytes, 0, row, 0);
    PackedReads(bytes, 0, row, 2);
    PackedReads(bytes, 0, row, 10);
    PackedReads(bytes, 0, row, 11);
    PackedReads(bytes, 0, row, 12);
    OneByte(bytes, 16);
  }

  lemma OneByte(bytes: Bytes, at: nat)
    requires at < |bytes|
    ensures At(bytes, at, 1) == Some(bytes[at])
  {
    assert bytes[at..at + 1][1..] == [];
  }

  function KeptAll(facts: seq<Fact>): (records: seq<Record>)
    ensures |records| == |facts|
  {
    seq(|facts|, i requires 0 <= i < |facts| => Kept(facts[i]))
  }

  /** Operations said to be lost: the counts of the gap records. */
  function Lost(facts: seq<Fact>): nat {
    if facts == [] then 0 else (if facts[0].kind == GAP then facts[0].count else 0) + Lost(facts[1..])
  }

  lemma {:induction false} LostMore(facts: seq<Fact>, f: Fact)
    ensures Lost(facts + [f]) == Lost(facts) + if f.kind == GAP then f.count else 0
  {
    if facts == [] {
      assert facts + [f] == [f];
    } else {
      LostMore(facts[1..], f);
      assert (facts + [f])[1..] == facts[1..] + [f];
    }
  }

  /** The gaps a log holds are those of the records it was written from, after the first. */
  lemma {:induction false} GapsAreLost(hash: Hash, facts: seq<Fact>, n: nat)
    requires 0 < n <= |facts| && forall i | 0 <= i < |facts| :: Fit(Row(facts[i]))
    ensures n <= Entries(LogOf(hash, KeptAll(facts))) && Gaps(LogOf(hash, KeptAll(facts)), n) == Lost(facts[1..n])
  {
    hide Lost, LogOf, EntryAt, Kept, Row, Fit;
    var records := KeptAll(facts);
    LogEntry(hash, records, n - 1);
    if n > 1 {
      GapsAreLost(hash, facts, n - 1);
      KeptReads(facts[n - 1]);
      LostMore(facts[1..n - 1], facts[n - 1]);
      assert facts[1..n] == facts[1..n - 1] + [facts[n - 1]];
    } else {
      LostNone(facts);
    }
  }

  lemma LostNone(facts: seq<Fact>)
    requires facts != []
    ensures Lost(facts[1..1]) == 0
  {
  }

  /** What a log says of the records it was written from: how many, which boot, how many operations before it and lost since. */
  ghost predicate Says(v: Verified, facts: seq<Fact>) {
    && v.records == |facts|
    && if facts == [] then v.boot == (0, 0) && v.gaps == 0 && v.before == 0
       else v.boot == (facts[0].subject, facts[0].source) && v.gaps == Lost(facts[1..]) && v.before == facts[0].count
  }

  /** Of the logs written from records exactly those are accepted whose records are in sequence, the first an attach record. */
  lemma AcceptedExactly(hash: Hash, facts: seq<Fact>)
    requires forall i | 0 <= i < |facts| :: Fit(Row(facts[i]))
    ensures Accepts(hash, LogOf(hash, KeptAll(facts)))
            <==> (forall i | 0 <= i < |facts| :: facts[i].sequence == i) && (facts != [] ==> facts[0].kind == ATTACH)
  {
    hide LogOf, EntryAt, Kept, Row, Fit, HeadAt, Sound;
    var records := KeptAll(facts);
    var log := LogOf(hash, records);
    assert Entries(log) == |facts|;
    forall i | 0 <= i < |facts|
      ensures Sound(hash, log, i) <==> facts[i].sequence == i && (i == 0 ==> facts[0].kind == ATTACH)
    {
      WrittenSound(hash, records, i);
      KeptReads(facts[i]);
    }
  }

  /** A log written from records in sequence, the first an attach record, is accepted, and says what they say. */
  lemma WrittenSays(hash: Hash, facts: seq<Fact>)
    requires forall i | 0 <= i < |facts| :: Fit(Row(facts[i])) && facts[i].sequence == i
    requires facts != [] ==> facts[0].kind == ATTACH
    ensures var log := LogOf(hash, KeptAll(facts));
      Accepts(hash, log) && Says(Summary(hash, log), facts) && Summary(hash, log).head == ChainHead(hash, KeptAll(facts))
  {
    hide Lost, LogOf, EntryAt, Kept, Row, Fit, HeadAt, ChainHead, Gaps, Sound;
    var records := KeptAll(facts);
    forall i | 0 <= i < |facts|
      ensures AuditLog.Sequence(records[i]) == i && (i == 0 ==> Kind(records[0]) == ATTACH)
    {
      KeptReads(facts[i]);
    }
    WrittenVerifies(hash, records);
    if facts == [] {
      GapsNone(LogOf(hash, records));
    } else {
      LogEntry(hash, records, 0);
      KeptReads(facts[0]);
      GapsAreLost(hash, facts, |facts|);
      assert facts[1..|facts|] == facts[1..];
    }
  }

  lemma GapsNone(log: Bytes)
    ensures Gaps(log, 0) == 0
  {
  }
}
