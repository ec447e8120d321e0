/**
 The one exception to the crash claim is not idle: a 32-bit checksum has two payloads
 it cannot tell apart, and with them a disk recovers to what nobody committed.
 */
module Collisions {
  import opened Words
  import opened Blocks
  import opened Superblocks
  import opened Records
  import Checksum
  import opened Journal
  import opened Recovery
  import opened Ledger

  /** More pigeons than holes: two of them share one. */
  lemma {:induction false} Pigeons(f: nat -> nat, n: nat, m: nat) returns (i: nat, j: nat)
    requires m < n && forall k: nat | k < n :: f(k) < m
    ensures i < j < n && f(i) == f(j)
    decreases n
  {
    var last := f(n - 1);
    if k: nat :| k < n - 1 && f(k) == last {
      return k, n - 1;
    }
    var g := (k: nat) => if f(k) > last then f(k) - 1 else f(k);
    assert forall k: nat | k < n - 1 :: g(k) < m - 1;
    i, j := Pigeons(g, n - 1, m - 1);
  }

  /** A block that is zeros but for a number in its last five bytes. */
  function Numbered(k: nat): (b: Block) {
    Zeros(BLOCK - 5) + ToLe(k, 5)
  }

  lemma NumbersTell(i: nat, j: nat)
    requires i < Span(5) && j < Span(5) && Numbered(i) == Numbered(j)
    ensures i == j
  {
    assert ToLe(i, 5) == Numbered(i)[BLOCK - 5..] == Numbered(j)[BLOCK - 5..] == ToLe(j, 5);
    LeRoundTrip(i, 5);
    LeRoundTrip(j, 5);
  }

  /** From every state of the checksum there are two blocks it cannot tell apart. */
  lemma BlocksCollide(hash: Checksum.Hash) returns (p: Block, q: Block)
    ensures p != q && Checksum.Fold(hash, p) == Checksum.Fold(hash, q)
  {
    Spans();
    assert Span(5) == 256 * U32;
    hide Checksum.Fold, Numbered;
    var f := (k: nat) => Checksum.Fold(hash, Numbered(k)) as nat;
    var i, j := Pigeons(f, U32 + 1, U32);
    p, q := Numbered(i), Numbered(j);
    if p == q {
      NumbersTell(i, j);
    }
  }

  /** The fields of a commit block for one home, before its checksum. */
  function OneHome(home: nat): seq<Field> {
    [Field(0, 8, JOURNAL_MAGIC), Field(8, 8, 1), Field(16, 4, 1), Field(TABLE, 4, home)]
  }

  function Blank(home: nat): (head: Bytes)
    ensures |head| == HEAD
  {
    PutAll(Zeros(HEAD), OneHome(home))
  }

  lemma BlankReads(home: nat)
    requires home < U32
    ensures var head := Blank(home);
      && At(head, 0, 8) == Some(JOURNAL_MAGIC) && At(head, 8, 8) == Some(1) && At(head, 16, 4) == Some(1)
      && At(head, TABLE, 4) == Some(home)
  {
    Spans();
    var fields := OneHome(home);
    assert Fits(fields, HEAD) && Disjoint(fields);
    PutReads(Zeros(HEAD), fields, 0);
    PutReads(Zeros(HEAD), fields, 1);
    PutReads(Zeros(HEAD), fields, 2);
    PutReads(Zeros(HEAD), fields, 3);
  }

  /** For every home there is a commit block that two different payloads fit. */
  lemma TwoFit(home: nat) returns (head: Bytes, p: Block, q: Block)
    requires home < U32
    ensures |head| == HEAD && p != q && Describes(head, 1, [home], [p]) && Describes(head, 1, [home], [q])
  {
    hide Checksum.Fold, At, Blank, ToLe;
    var blank := Blank(home);
    BlankReads(home);
    var hash := Checksum.Fold(Checksum.Fold(Checksum.SEED, blank[..20]), blank[TABLE..TABLE + 4]);
    p, q := BlocksCollide(hash);
    OneBlockSum(blank, p);
    OneBlockSum(blank, q);
    Journal.Sealed(blank, 1, [home], [p]);
    Journal.Sealed(blank, 1, [home], [q]);
    head := Written(blank, 20, ToLe(Sum(blank, [p]), 4));
  }

  lemma OneBlockSum(head: Bytes, p: Block)
    requires HEAD <= |head|
    ensures Sum(head, [p])
            == Checksum.NonZero(Checksum.Fold(Checksum.Fold(Checksum.Fold(Checksum.SEED, head[..20]), head[TABLE..TABLE + 4]), p))
  {
    hide Checksum.Fold;
    var hash := Checksum.Fold(Checksum.Fold(Checksum.SEED, head[..20]), head[TABLE..TABLE + 4]);
    assert [p][..|[p]| - 1] == [];
    assert FoldBlocks(hash, [p]) == Checksum.Fold(FoldBlocks(hash, []), p);
  }

  /** A disk with superblock `root` whose log holds one block for `home`, committed by `page`; zeros but for these. */
  function Logged(sb: Superblock, n: nat, root: Block, home: nat, page: Block, p: Block, held: Block): (d: Disk)
    requires Sane(sb, n) && 0 < home < n && !InLog(sb, home)
    ensures |d| == n && d[0] == root
    ensures d[sb.journalStart] == page && d[sb.journalStart + 1] == p && d[home] == held
  {
    var zeros: Disk := seq(n, _ => ZERO);
    zeros[0 := root][sb.journalStart := page][sb.journalStart + 1 := p][home := held]
  }

  lemma LoggedCommits(sb: Superblock, n: nat, root: Block, home: nat, head: Bytes, p: Block, held: Block)
    requires Sane(sb, n) && 0 < home < n && !InLog(sb, home) && |head| == HEAD && Describes(head, 1, [home], [p])
    ensures var d := Logged(sb, n, root, home, Page(head), p, held);
      && Committed(sb, d).Some? && Homes(d[sb.journalStart]) == [home] && Payload(sb, d, 1) == [p]
      && Count(d[sb.journalStart]) == 1
  {
    hide At, Sum, Describes, Page;
    var d := Logged(sb, n, root, home, Page(head), p, held);
    assert Payload(sb, d, 1) == [p];
    assert d[sb.journalStart := Page(head)] == d;
    CommitReadsBack(sb, d, head, 1, [home]);
    HomesAre(d[sb.journalStart], [home]);
  }

  /**
   The exception happens: on every device and under every superblock it may have there is
   a state a refused clear can leave, with the log already being used again, in which a
   volume can be open, and from which one write of a waiting block takes a disk that
   recovers to a disk that does not.
   */
  lemma AccidentHappens(sb: Superblock, n: nat, root: Block) returns (view: Disk, d: Disk, dirty: set<nat>, s: Stand, b: nat)
    requires ReadHead(root, n) == Ok(sb) && n <= U32
    ensures |view| == |d| == n && ReadHead(view[0], n) == Ok(sb) && Builds(sb, view, d, dirty, s) && s.origin.Known?
    ensures b in dirty && b < n && forall k | 0 <= k < n && k !in dirty :: view[k] == d[k]
    ensures RecoversTo(sb, d, s) && !RecoversTo(sb, d[b := view[b]], s)
  {
    hide At, Sum, Describes, Page, Committed, RecoversTo, Announces, ReadHead;
    var home, js := sb.bitmapStart, sb.journalStart;
    var head, p, q := TwoFit(home);
    d := Logged(sb, n, root, home, Page(head), p, p);
    LoggedCommits(sb, n, root, home, head, p, p);
    LoggedCommits(sb, n, root, home, head, q, p);
    s := Stand(d, {}, Known(d[js], [p]));
    view, dirty, b := d[js := ZERO][js + 1 := q], {js, js + 1}, js + 1;
    ZeroAnnouncesNothing();
    StaleRests(sb, d, home, p);
    BreaksExactly(sb, d, s);
    GenuineIsHarmless(sb, d, s);
    var e := d[b := view[b]];
    assert e == Logged(sb, n, root, home, Page(head), q, p);
    assert Rests(sb, e, s);
    assert Final(sb, e, [home], [home][0]) == q != s.state[home];
    assert Harmful(sb, e, s);
    BreaksExactly(sb, e, s);
  }

  /**
   On any volume: over a header of one home left on the device, a block waiting in the
   log that the header's checksum cannot tell from the one it was committed over is an
   accident about to happen.
   */
  lemma StaleCollides(sb: Superblock, view: Disk, d: Disk, dirty: set<nat>, s: Stand, home: nat)
    requires Builds(sb, view, d, dirty, s) && s.origin.Known? && Announces(d[sb.journalStart], sb.journalBlocks)
    requires Homes(d[sb.journalStart]) == [home] && home < |d| && home !in s.loose
    requires view[sb.journalStart + 1] != s.state[home]
    requires Sum(d[sb.journalStart], [view[sb.journalStart + 1]]) == Sum(d[sb.journalStart], [s.state[home]])
    ensures !RecoversTo(sb, d[sb.journalStart + 1 := view[sb.journalStart + 1]], s)
  {
    hide At, Sum, RecoversTo;
    var js := sb.journalStart;
    var q := view[js + 1];
    var e := d[js + 1 := q];
    assert [home][0] == home && Last([home], home) == 1;
    assert s.origin.payload == [s.state[home]];
    assert Payload(sb, e, 1) == [q];
    assert Committed(sb, e).Some?;
    assert Rests(sb, e, s);
    assert Final(sb, e, [home], [home][0]) == q;
    assert Harmful(sb, e, s);
    BreaksExactly(sb, e, s);
  }

  lemma StaleRests(sb: Superblock, d: Disk, home: nat, p: Block)
    requires Sane(sb, |d|) && Committed(sb, d).Some? && Homes(d[sb.journalStart]) == [home] && Payload(sb, d, 1) == [p]
    requires Count(d[sb.journalStart]) == 1 && InRange(sb, home) && !InLog(sb, home) && d[home] == p
    ensures Rests(sb, d, Stand(d, {}, Known(d[sb.journalStart], [p])))
    ensures !Forged(sb, d, Known(d[sb.journalStart], [p]))
  {
    hide At, Sum;
    CommittedMeans(sb, d);
    hide Committed;
  }
}
