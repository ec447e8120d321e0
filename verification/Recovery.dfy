/** What mounting makes of a disk, and why it may be interrupted any number of times. */
module Recovery {
  import opened Words
  import opened Blocks
  import opened Superblocks
  import opened Journal

  /** Whether `b` lies in the log, its commit block included. */
  predicate InLog(sb: Superblock, b: nat) {
    sb.journalStart <= b < sb.journalStart + sb.journalBlocks
  }

  /** Where the logged blocks belong, in log order. */
  function Homes(head: Block): (homes: seq<nat>)
    requires Count(head) <= MAX_STAGED
    ensures |homes| == Count(head)
  {
    seq(Count(head), i requires 0 <= i < Count(head) => Target(head, i))
  }

  predicate AllInRange(sb: Superblock, homes: seq<nat>) {
    forall i | 0 <= i < |homes| :: InRange(sb, homes[i])
  }

  predicate Outside(sb: Superblock, homes: seq<nat>) {
    forall i | 0 <= i < |homes| :: !InLog(sb, homes[i])
  }

  /** The transaction a disk holds, if any, names only blocks outside the log. */
  predicate Contained(sb: Superblock, d: Disk)
    requires Sane(sb, |d|)
  {
    Committed(sb, d).Some? ==> Outside(sb, Homes(d[sb.journalStart]))
  }

  /** Logged block after logged block, each to its home. */
  function Replay(sb: Superblock, d: Disk, homes: seq<nat>): (r: Disk)
    requires Sane(sb, |d|) && AllInRange(sb, homes) && |homes| < sb.journalBlocks
    ensures |r| == |d|
  {
    if homes == [] then d
    else
      var r := Replay(sb, d, homes[..|homes| - 1]);
      r[homes[|homes| - 1] := r[sb.journalStart + |homes|]]
  }

  /** The disk a complete, uninterrupted mount leaves. */
  function Recovered(sb: Superblock, d: Disk): (r: Result<Disk, FsError>)
    requires Sane(sb, |d|)
    ensures r.Ok? ==> |r.value| == |d|
  {
    if Committed(sb, d).None? then Ok(d)
    else
      var homes := Homes(d[sb.journalStart]);
      if AllInRange(sb, homes) then Ok(Replay(sb, d, homes)[sb.journalStart := ZERO]) else Err(OutOfRange)
  }

  /** The last place `b` has in `homes`, plus one; zero if it has none. */
  function Last(homes: seq<nat>, b: nat): (k: nat)
    ensures k <= |homes|
    ensures k > 0 <==> b in homes
    ensures k > 0 ==> homes[k - 1] == b
  {
    if homes == [] then 0
    else if homes[|homes| - 1] == b then |homes|
    else Last(homes[..|homes| - 1], b)
  }

  /** What block `b` becomes: the last logged block that names it, or what it was. */
  function Final(sb: Superblock, d: Disk, homes: seq<nat>, b: nat): Block
    requires Sane(sb, |d|) && |homes| < sb.journalBlocks && b < |d|
  {
    if b in homes then d[sb.journalStart + Last(homes, b)] else d[b]
  }

  /** Replay, block by block. */
  lemma {:induction false} ReplayAt(sb: Superblock, d: Disk, homes: seq<nat>, b: nat)
    requires Sane(sb, |d|) && AllInRange(sb, homes) && Outside(sb, homes) && |homes| < sb.journalBlocks && b < |d|
    ensures Replay(sb, d, homes)[b] == Final(sb, d, homes, b)
  {
    if homes != [] {
      var front := homes[..|homes| - 1];
      ReplayAt(sb, d, front, b);
      ReplayAt(sb, d, front, sb.journalStart + |homes|);
      assert b in homes <==> b in front || b == homes[|homes| - 1];
      assert sb.journalStart + |homes| !in front;
    }
  }

  lemma RecoveredAt(sb: Superblock, d: Disk, b: nat)
    requires Sane(sb, |d|) && Contained(sb, d) && Recovered(sb, d).Ok? && b < |d| && b != sb.journalStart
    ensures Recovered(sb, d).value[b] ==
              if Committed(sb, d).Some? then Final(sb, d, Homes(d[sb.journalStart]), b) else d[b]
  {
    if Committed(sb, d).Some? {
      ReplayAt(sb, d, Homes(d[sb.journalStart]), b);
    }
  }

  /** The log of `e` is the log of `d`. */
  predicate SameLog(sb: Superblock, d: Disk, e: Disk)
    requires Sane(sb, |d|) && |d| == |e|
  {
    forall b | 0 <= b < |d| && InLog(sb, b) :: e[b] == d[b]
  }

  lemma SameLogCommits(sb: Superblock, d: Disk, e: Disk)
    requires Sane(sb, |d|) && |d| == |e| && SameLog(sb, d, e)
    ensures Committed(sb, e) == Committed(sb, d)
    ensures e[sb.journalStart] == d[sb.journalStart]
  {
    hide Sum;
    var head := d[sb.journalStart];
    assert e[sb.journalStart] == head;
    if Announces(head, sb.journalBlocks) {
      assert Payload(sb, e, Count(head)) == Payload(sb, d, Count(head));
    }
  }

  /** `e` is a disk some interrupted replay of `d` may leave: homes hold anything, or the log is cleared and they are done. */
  ghost predicate PartReplayed(sb: Superblock, d: Disk, e: Disk)
    requires Sane(sb, |d|) && Committed(sb, d).Some?
  {
    var homes := Homes(d[sb.journalStart]);
    && |e| == |d|
    && (forall b | 0 <= b < |d| && b !in homes && b != sb.journalStart :: e[b] == d[b])
    && (e[sb.journalStart] == d[sb.journalStart]
        || (e[sb.journalStart] == ZERO && forall b | 0 <= b < |d| && b in homes :: e[b] == Final(sb, d, homes, b)))
  }

  /**
   Recovery is restartable: whatever an interrupted replay leaves, the log still
   commits the same transaction until it is cleared, and recovering from there
   gives the disk one uninterrupted recovery gives.
   */
  lemma Restartable(sb: Superblock, d: Disk, e: Disk)
    requires Sane(sb, |d|) && Contained(sb, d) && Committed(sb, d).Some? && Recovered(sb, d).Ok?
    requires PartReplayed(sb, d, e)
    ensures Contained(sb, e) && Recovered(sb, e) == Recovered(sb, d)
    ensures e[sb.journalStart] == d[sb.journalStart] ==> Committed(sb, e) == Committed(sb, d)
  {
    hide Committed, Replay, Homes, Final, At, Recovered, Contained;
    if e[sb.journalStart] == d[sb.journalStart] {
      KeptReplays(sb, d, e);
    } else {
      ClearedStays(sb, d, e);
    }
  }

  /** Under an unchanged log, what the homes hold does not matter. */
  lemma KeptReplays(sb: Superblock, d: Disk, e: Disk)
    requires Sane(sb, |d|) && Contained(sb, d) && Committed(sb, d).Some? && Recovered(sb, d).Ok?
    requires PartReplayed(sb, d, e) && e[sb.journalStart] == d[sb.journalStart]
    ensures Contained(sb, e) && Recovered(sb, e) == Recovered(sb, d) && Committed(sb, e) == Committed(sb, d)
  {
    hide Committed, Replay, Homes, At;
    var homes := Homes(d[sb.journalStart]);
    assert SameLog(sb, d, e);
    SameLogCommits(sb, d, e);
    forall b | 0 <= b < |d|
      ensures Recovered(sb, e).value[b] == Recovered(sb, d).value[b]
    {
      if b != sb.journalStart {
        RecoveredAt(sb, d, b);
        RecoveredAt(sb, e, b);
      }
    }
    assert Recovered(sb, e).value == Recovered(sb, d).value;
  }

  /** With the log cleared over homes that are done, nothing is left to do. */
  lemma ClearedStays(sb: Superblock, d: Disk, e: Disk)
    requires Sane(sb, |d|) && Contained(sb, d) && Committed(sb, d).Some? && Recovered(sb, d).Ok?
    requires PartReplayed(sb, d, e) && e[sb.journalStart] == ZERO
    requires forall b | 0 <= b < |d| && b in Homes(d[sb.journalStart]) :: e[b] == Final(sb, d, Homes(d[sb.journalStart]), b)
    ensures Contained(sb, e) && Recovered(sb, e) == Recovered(sb, d)
  {
    hide Replay, Homes, At, Sum;
    ZeroAnnouncesNothing();
    assert Committed(sb, e).None?;
    hide Committed;
    forall b | 0 <= b < |d|
      ensures e[b] == Recovered(sb, d).value[b]
    {
      if b != sb.journalStart {
        RecoveredAt(sb, d, b);
      }
    }
    assert e == Recovered(sb, d).value;
  }

  /** Each disk is where some mount of the one before it stopped. */
  ghost predicate Stops(sb: Superblock, disks: seq<Disk>) {
    && 0 < |disks| && (forall k | 0 <= k < |disks| :: Sane(sb, |disks[k]|))
    && forall k | 0 < k < |disks| ::
         if Committed(sb, disks[k - 1]).Some? then PartReplayed(sb, disks[k - 1], disks[k]) else disks[k] == disks[k - 1]
  }

  /** Any number of interrupted mounts, then a complete one, is one complete mount. */
  lemma {:induction false} StopsCostNothing(sb: Superblock, disks: seq<Disk>)
    requires Stops(sb, disks) && Contained(sb, disks[0]) && Recovered(sb, disks[0]).Ok?
    ensures var last := disks[|disks| - 1]; Contained(sb, last) && Recovered(sb, last) == Recovered(sb, disks[0])
  {
    hide PartReplayed, Committed, Contained, Recovered, Sane;
    if |disks| > 1 {
      var front := disks[..|disks| - 1];
      assert front[|front| - 1] == disks[|disks| - 2];
      StopsCostNothing(sb, front);
      if Committed(sb, disks[|disks| - 2]).Some? {
        Restartable(sb, disks[|disks| - 2], disks[|disks| - 1]);
      }
    }
  }

  lemma ZeroAnnouncesNothing()
    ensures forall n: nat :: !Announces(ZERO, n)
  {
    ZerosRead(8);
    assert ZERO[0..8] == Zeros(8);
  }

  lemma {:induction false} ZerosRead(n: nat)
    ensures FromLe(Zeros(n)) == 0
  {
    if n > 0 {
      ZerosRead(n - 1);
      assert Zeros(n)[1..] == Zeros(n - 1);
    }
  }
}
