/** FNV-1a, folded to 32 bits, as a running hash. */
module Checksum {
  import opened Words
  import Digits

  const SEED: nat := 0x811c_9dc5
  const PRIME: nat := 0x0100_0193

  type Hash = h: nat | h < U32

  /** Bit by bit, exclusive or. */
  function Xor(x: nat, y: nat): nat
    decreases x + y
  {
    if x == 0 && y == 0 then 0 else 2 * Xor(x / 2, y / 2) + (x + y) % 2
  }

  lemma {:induction false} XorBelow(x: nat, y: nat, n: nat)
    requires x < Digits.Pow2(n) && y < Digits.Pow2(n)
    ensures Xor(x, y) < Digits.Pow2(n)
  {
    if n > 0 {
      XorBelow(x / 2, y / 2, n - 1);
    }
  }

  lemma Pow32()
    ensures Digits.Pow2(32) == U32
  {
    Digits.Pow2Small();
    Digits.Pow2Adds(8, 8);
    Digits.Pow2Adds(16, 16);
  }

  function Step(hash: Hash, byte: Byte): Hash {
    Xor(hash, byte) * PRIME % U32
  }

  /** The hash continued over `bytes`. */
  function Fold(hash: Hash, bytes: Bytes): Hash {
    if bytes == [] then hash else Step(Fold(hash, bytes[..|bytes| - 1]), bytes[|bytes| - 1])
  }

  /** Never zero, so that a field nobody wrote is not a match. */
  function NonZero(hash: Hash): (h: Hash)
    ensures h != 0
  {
    if hash == 0 then 1 else hash
  }

  function Of(bytes: Bytes): Hash {
    NonZero(Fold(SEED, bytes))
  }

  /** Folding pieces one after another is folding their concatenation. */
  lemma {:induction false} FoldSplits(hash: Hash, a: Bytes, b: Bytes)
    ensures Fold(hash, a + b) == Fold(Fold(hash, a), b)
  {
    hide Step;
    if b == [] {
      assert a + b == a;
    } else {
      FoldSplits(hash, a, b[..|b| - 1]);
      assert (a + b)[..|a + b| - 1] == a + b[..|b| - 1];
    }
  }

  method Continue(hash: Hash, bytes: Bytes) returns (h: Hash)
    ensures h == Fold(hash, bytes)
  {
    h := hash;
    for i := 0 to |bytes|
      invariant h == Fold(hash, bytes[..i])
    {
      assert bytes[..i + 1][..i] == bytes[..i];
      h := Step(h, bytes[i]);
    }
    assert bytes[..|bytes|] == bytes;
  }

  // ----- what it tells

  /** What undoes a multiplication by the prime. */
  const UNDO: nat := 0x359c_449b

  lemma {:induction false} Rounds(a: nat, q: nat)
    ensures (a + q * U32) % U32 == a % U32
  {
    if q > 0 {
      Rounds(a, q - 1);
      assert a + q * U32 == a + (q - 1) * U32 + U32;
    }
  }

  lemma TimesUndone(x: Hash)
    ensures x * PRIME % U32 * UNDO % U32 == x
  {
    var y, q := x * PRIME % U32, x * PRIME / U32;
    var k := (PRIME * UNDO - 1) / U32;
    assert PRIME * UNDO == 1 + k * U32;
    assert y * UNDO + (q * UNDO) * U32 == x * (PRIME * UNDO) == x + (x * k) * U32;
    Rounds(y * UNDO, q * UNDO);
    Rounds(x, x * k);
  }

  lemma XorStep(x: nat, y: nat)
    ensures Xor(x, y) == 2 * Xor(x / 2, y / 2) + (x + y) % 2
  {
  }

  lemma Halves(p: nat, r: nat, q: nat, s: nat)
    requires 2 * p + r == 2 * q + s && r < 2 && s < 2
    ensures p == q && r == s
  {
  }

  lemma SameHalves(x: nat, y: nat, a: nat)
    requires x / 2 == y / 2 && (x + a) % 2 == (y + a) % 2
    ensures x == y
  {
  }

  /** What was mixed in tells what it was mixed into. */
  lemma {:induction false} XorTells(x: nat, y: nat, a: nat, b: nat)
    requires Xor(x, a) == Xor(y, b) && (x == y || a == b)
    ensures x == y && a == b
    decreases x + y + a + b
  {
    hide Xor;
    if x + y + a + b > 0 {
      XorStep(x, a);
      XorStep(y, b);
      Halves(Xor(x / 2, a / 2), (x + a) % 2, Xor(y / 2, b / 2), (y + b) % 2);
      XorTells(x / 2, y / 2, a / 2, b / 2);
      if x == y {
        SameHalves(a, b, x);
      } else {
        SameHalves(x, y, a);
      }
    }
  }

  /** A step tells the hash it came from, given the byte, and the byte, given the hash. */
  lemma StepTells(g: Hash, h: Hash, a: Byte, b: Byte)
    requires Step(g, a) == Step(h, b) && (g == h || a == b)
    ensures g == h && a == b
  {
    hide Xor;
    Pow32();
    XorBelow(g, a, 32);
    XorBelow(h, b, 32);
    TimesUndone(Xor(g, a));
    TimesUndone(Xor(h, b));
    XorTells(g, h, a, b);
  }

  /** The same bytes folded into different hashes leave them different. */
  lemma {:induction false} FoldTells(g: Hash, h: Hash, bytes: Bytes)
    requires Fold(g, bytes) == Fold(h, bytes)
    ensures g == h
  {
    hide Step;
    if bytes != [] {
      var front, last := bytes[..|bytes| - 1], bytes[|bytes| - 1];
      StepTells(Fold(g, front), Fold(h, front), last, last);
      FoldTells(g, h, front);
    }
  }

  /** One changed byte changes the checksum wherever it is, unless the two are the zero that is avoided and the one in its place. */
  lemma OneByteTells(bytes: Bytes, i: nat, b: Byte)
    requires i < |bytes| && b != bytes[i]
    ensures Fold(SEED, bytes[i := b]) != Fold(SEED, bytes)
    ensures Of(bytes[i := b]) == Of(bytes) ==> Fold(SEED, bytes) <= 1 && Fold(SEED, bytes[i := b]) <= 1
  {
    hide Fold, Step;
    var front, back := bytes[..i], bytes[i + 1..];
    assert bytes == (front + [bytes[i]]) + back && bytes[i := b] == (front + [b]) + back;
    FoldSplits(SEED, front + [bytes[i]], back);
    FoldSplits(SEED, front + [b], back);
    FoldOne(SEED, front, bytes[i]);
    FoldOne(SEED, front, b);
    if Fold(SEED, bytes[i := b]) == Fold(SEED, bytes) {
      FoldTells(Step(Fold(SEED, front), b), Step(Fold(SEED, front), bytes[i]), back);
      StepTells(Fold(SEED, front), Fold(SEED, front), b, bytes[i]);
    }
  }

  lemma FoldOne(hash: Hash, front: Bytes, b: Byte)
    ensures Fold(hash, front + [b]) == Step(Fold(hash, front), b)
  {
    assert (front + [b])[..|front + [b]| - 1] == front;
  }

  lemma SeedAndLetter()
    ensures Xor(SEED, 0x61) == 0x811c_9da4
  {
    hide Xor;
    XorNone(0x102393b);
    XorStep(0x2047277, 0x1);
    XorStep(0x408e4ee, 0x3);
    XorStep(0x811c9dc, 0x6);
    XorStep(0x102393b8, 0xc);
    XorStep(0x20472771, 0x18);
    XorStep(0x408e4ee2, 0x30);
    XorStep(0x811c9dc5, 0x61);
  }

  /** FNV-1a of the letter a, and of nothing, as published. */
  lemma KnownAnswers()
    ensures Of([]) == 0x811c_9dc5 && Of([0x61]) == 0xe40c_292c
  {
    hide Xor;
    SeedAndLetter();
    assert [0x61][..0] == [] && Fold(SEED, []) == SEED;
  }

  lemma {:induction false} XorNone(x: nat)
    ensures Xor(x, 0) == x
  {
    if x > 0 {
      XorNone(x / 2);
    }
  }
}
