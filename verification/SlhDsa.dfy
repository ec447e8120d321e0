/**
 SLH-DSA-SHA2-128s (FIPS 205) over any hash functions: addresses, WOTS+ chains,
 Merkle trees and FORS as functions of values. `T` is the tweakable hash for one
 key: everything SHA-256 and PK.seed contribute.
 */
module SlhDsa {
  import opened Words
  import opened Digits

  const N: nat := 16
  const D: nat := 7
  const H_PRIME: nat := 9
  const A: nat := 12
  const K: nat := 14
  const LG_W: nat := 4
  const W: nat := 16
  const LEN1: nat := 32
  const LEN2: nat := 3
  const LEN: nat := LEN1 + LEN2
  const M: nat := 30

  const FORS_BYTES: nat := K * (1 + A) * N
  const XMSS_BYTES: nat := (H_PRIME + LEN) * N
  const SIGNATURE_BYTES: nat := (1 + K * (1 + A) + H_PRIME * D + D * LEN) * N

  const WOTS_HASH: nat := 0
  const WOTS_PK: nat := 1
  const TREE: nat := 2
  const FORS_TREE: nat := 3
  const FORS_ROOTS: nat := 4
  const WOTS_PRF: nat := 5
  const FORS_PRF: nat := 6

  type Value = v: Bytes | |v| == N witness Zeros(N)

  /** The compressed address: layer, tree, type, and three words whose meaning the type decides. */
  datatype Address = Address(layer: nat, tree: nat, kind: nat, word1: nat, word2: nat, word3: nat)

  type Tweak = (Address, Bytes) -> Value

  /** The address with its type set and its words cleared. */
  function Typed(a: Address, kind: nat): Address {
    a.(kind := kind, word1 := 0, word2 := 0, word3 := 0)
  }

  /** The `i`th N-byte value of a byte string. */
  function Chunk(x: Bytes, i: nat): Value
    requires (i + 1) * N <= |x|
  {
    x[i * N..(i + 1) * N]
  }

  /** Values end to end. */
  function Flat(vs: seq<Value>): (x: Bytes)
    ensures |x| == |vs| * N
  {
    if vs == [] then [] else Flat(vs[..|vs| - 1]) + vs[|vs| - 1]
  }

  lemma {:induction false} ChunkOfFlat(vs: seq<Value>, tail: Bytes, i: nat)
    requires i < |vs|
    ensures (i + 1) * N <= |Flat(vs) + tail| && Chunk(Flat(vs) + tail, i) == vs[i]
  {
    var front, last := vs[..|vs| - 1], vs[|vs| - 1];
    assert Flat(vs) + tail == Flat(front) + (last + tail);
    if i < |vs| - 1 {
      ChunkOfFlat(front, last + tail, i);
    } else {
      assert (Flat(front) + (last + tail))[i * N..(i + 1) * N] == last;
    }
  }

  /** Pieces end to end. */
  function Concat(parts: seq<Bytes>): Bytes {
    if parts == [] then [] else Concat(parts[..|parts| - 1]) + parts[|parts| - 1]
  }

  lemma {:induction false} ConcatSize(parts: seq<Bytes>, width: nat)
    requires forall i | 0 <= i < |parts| :: |parts[i]| == width
    ensures |Concat(parts)| == |parts| * width
  {
    if parts != [] {
      ConcatSize(parts[..|parts| - 1], width);
      assert (|parts| - 1) * width + width == |parts| * width;
    }
  }

  /** Pieces of one width are found again where they were put. */
  lemma {:induction false} ConcatAt(parts: seq<Bytes>, width: nat, i: nat)
    requires forall i | 0 <= i < |parts| :: |parts[i]| == width
    requires i < |parts|
    ensures i * width <= (i + 1) * width <= |parts| * width == |Concat(parts)|
    ensures Concat(parts)[i * width..(i + 1) * width] == parts[i]
  {
    ConcatSize(parts, width);
    MulGrows(i, i + 1, width);
    MulGrows(i + 1, |parts|, width);
    var front := parts[..|parts| - 1];
    ConcatSize(front, width);
    if i < |front| {
      ConcatAt(front, width, i);
    }
  }

  // ----- WOTS+

  /** Algorithm 5: `F` iterated `steps` times from position `start`. */
  function Chain(t: Tweak, x: Value, start: nat, steps: nat, a: Address): Value {
    if steps == 0 then x
    else t(a.(word3 := start + steps - 1), Chain(t, x, start, steps - 1, a))
  }

  /** A chain does not depend on what was left in the word it counts in. */
  lemma {:induction false} ChainIgnoresLeftover(t: Tweak, x: Value, start: nat, steps: nat, a: Address, left: nat)
    ensures Chain(t, x, start, steps, a.(word3 := left)) == Chain(t, x, start, steps, a)
  {
    if steps > 0 {
      ChainIgnoresLeftover(t, x, start, steps - 1, a, left);
    }
  }

  /** Chains compose: the verifier finishes what the signer began. */
  lemma {:induction false} ChainComposes(t: Tweak, x: Value, start: nat, k: nat, steps: nat, a: Address)
    ensures Chain(t, Chain(t, x, start, k, a), start + k, steps, a) == Chain(t, x, start, k + steps, a)
  {
    if steps > 0 {
      ChainComposes(t, x, start, k, steps - 1, a);
    }
  }

  /** The message's base-16 digits. */
  function MessageDigits(message: Value): (ds: seq<nat>)
    ensures |ds| == LEN1
  {
    seq(LEN1, i requires 0 <= i < LEN1 => Digit(message, LG_W, i))
  }

  function Shortfall(ds: seq<nat>): int {
    if ds == [] then 0 else Shortfall(ds[..|ds| - 1]) + (W - 1 - ds[|ds| - 1])
  }

  lemma {:induction false} ShortfallBounds(ds: seq<nat>)
    requires forall i | 0 <= i < |ds| :: ds[i] < W
    ensures 0 <= Shortfall(ds) <= 15 * |ds|
  {
    if ds != [] {
      ShortfallBounds(ds[..|ds| - 1]);
    }
  }

  lemma MessageDigitsSmall(message: Value)
    ensures forall i | 0 <= i < LEN1 :: MessageDigits(message)[i] < W
    ensures 0 <= Shortfall(MessageDigits(message)) <= 480
  {
    Pow2Small();
    ShortfallBounds(MessageDigits(message));
  }

  /** The message digits followed by the three digits of their checksum. */
  function WotsDigits(message: Value): (ds: seq<nat>)
    ensures |ds| == LEN
    ensures forall i | 0 <= i < LEN :: ds[i] < W
  {
    MessageDigitsSmall(message);
    var ds := MessageDigits(message);
    var sum := Shortfall(ds);
    ds + [sum / 256, (sum / 16) % 16, sum % 16]
  }

  // ----- Winternitz incomparability

  lemma {:induction false} ShortfallOrders(a: seq<nat>, b: seq<nat>)
    requires |a| == |b| && forall i | 0 <= i < |a| :: a[i] <= b[i]
    ensures Shortfall(b) <= Shortfall(a)
    ensures a != b ==> Shortfall(b) < Shortfall(a)
  {
    if a != [] {
      var a', b' := a[..|a| - 1], b[..|b| - 1];
      ShortfallOrders(a', b');
      if a' == b' {
        assert a == a' + [a[|a| - 1]] && b == b' + [b[|b| - 1]];
      }
    }
  }

  /** A nibble is half a byte. */
  lemma NibbleOf(x: Bytes, i: nat)
    requires i / 2 < |x|
    ensures Need(i, 4) == i / 2 + 1
    ensures Digit(x, 4, i) == if i % 2 == 0 then x[i / 2] / 16 else x[i / 2] % 16
  {
    Pow2Small();
    var k := i / 2;
    assert x[..k + 1][..k] == x[..k];
    assert Pow2(0) == 1;
    var t := 256 * ToInt(x[..k]) + x[k];
    assert ToInt(x[..k + 1]) == t;
    if i % 2 == 0 {
      assert t / 16 == 16 * ToInt(x[..k]) + x[k] / 16;
    }
  }

  /** Different messages have different digits. */
  lemma DigitsTell(a: Value, b: Value)
    requires MessageDigits(a) == MessageDigits(b)
    ensures a == b
  {
    forall k | 0 <= k < N
      ensures a[k] == b[k]
    {
      NibbleOf(a, 2 * k);
      NibbleOf(b, 2 * k);
      NibbleOf(a, 2 * k + 1);
      NibbleOf(b, 2 * k + 1);
      assert MessageDigits(a)[2 * k] == MessageDigits(b)[2 * k];
      assert MessageDigits(a)[2 * k + 1] == MessageDigits(b)[2 * k + 1];
    }
  }

  /**
   Winternitz incomparability (FIPS 205 section 5): for two different messages some
   digit of the second is strictly smaller than the first's, so a signature on one
   never gives every chain value the other needs.
   */
  lemma Incomparable(a: Value, b: Value)
    requires a != b
    ensures exists i | 0 <= i < LEN :: WotsDigits(b)[i] < WotsDigits(a)[i]
  {
    if forall i | 0 <= i < LEN :: WotsDigits(a)[i] <= WotsDigits(b)[i] {
      DominatedIsEqual(a, b);
    }
  }

  lemma ThreeDigits(x: nat, y: nat)
    requires x / 256 <= y / 256 && (x / 16) % 16 <= (y / 16) % 16 && x % 16 <= y % 16
    ensures x <= y
  {
    assert x == 256 * (x / 256) + 16 * ((x / 16) % 16) + x % 16 && y == 256 * (y / 256) + 16 * ((y / 16) % 16) + y % 16 by {
      ThreeDigitsAre(x);
      ThreeDigitsAre(y);
    }
  }

  lemma ThreeDigitsAre(x: nat)
    ensures x == 256 * (x / 256) + 16 * ((x / 16) % 16) + x % 16
  {
    var q := x / 16;
    assert x / 256 == q / 16;
  }

  lemma DominatedIsEqual(a: Value, b: Value)
    requires forall i | 0 <= i < LEN :: WotsDigits(a)[i] <= WotsDigits(b)[i]
    ensures a == b
  {
    hide MessageDigits, Shortfall;
    var ma, mb := MessageDigits(a), MessageDigits(b);
    var da, db := WotsDigits(a), WotsDigits(b);
    forall i | 0 <= i < LEN1
      ensures ma[i] <= mb[i]
    {
      assert da[i] == ma[i] && db[i] == mb[i] && da[i] <= db[i];
    }
    ShortfallOrders(ma, mb);
    MessageDigitsSmall(a);
    MessageDigitsSmall(b);
    assert da[32] <= db[32] && da[33] <= db[33] && da[34] <= db[34];
    ThreeDigits(Shortfall(ma), Shortfall(mb));
    DigitsTell(a, b);
  }

  /** The WOTS+ public key a signature implies (Algorithm 8). */
  function WotsPk(t: Tweak, sig: Bytes, message: Value, a: Address): Value
    requires |sig| >= LEN * N
  {
    t(Typed(a, WOTS_PK).(word1 := a.word1), Flat(WotsEnds(t, sig, message, a)))
  }

  /** Where each chain ends when the signature's value is carried on from its digit. */
  function WotsEnds(t: Tweak, sig: Bytes, message: Value, a: Address): (ends: seq<Value>)
    requires |sig| >= LEN * N
    ensures |ends| == LEN
  {
    seq(LEN, i requires 0 <= i < LEN => WotsEnd(t, sig, message, a, i))
  }

  function WotsEnd(t: Tweak, sig: Bytes, message: Value, a: Address, i: nat): Value
    requires |sig| >= LEN * N && i < LEN
  {
    var digit := WotsDigits(message)[i];
    Chain(t, Chunk(sig, i), digit, W - 1 - digit, a.(word2 := i))
  }

  // ----- Merkle trees

  /** `n` shifted right by `k` bits. */
  function Shift(n: nat, k: nat): nat {
    if k == 0 then n else Shift(n, k - 1) / 2
  }

  lemma {:induction false} ShiftAdds(n: nat, j: nat, k: nat)
    ensures Shift(Shift(n, j), k) == Shift(n, j + k)
  {
    if k > 0 {
      ShiftAdds(n, j, k - 1);
    }
  }

  lemma {:induction false} ShiftSmall(n: nat, k: nat)
    requires n < Pow2(k)
    ensures Shift(n, k) == 0
  {
    if k > 0 {
      ShiftSmall(n / 2, k - 1);
      ShiftAdds(n, 1, k - 1);
      assert Shift(n, 1) == Shift(n, 0) / 2;
    }
  }

  /** Shifting a number made of `c` above `k` low bits shifts the low bits under a shrinking `c`. */
  lemma {:induction false} ShiftUnder(c: nat, k: nat, r: nat, j: nat)
    requires j <= k
    ensures Shift(c * Pow2(k) + r, j) == c * Pow2(k - j) + Shift(r, j)
  {
    if j > 0 {
      ShiftUnder(c, k, r, j - 1);
      assert Pow2(k - j + 1) == 2 * Pow2(k - j);
      hide Pow2;
      Halve(c, Pow2(k - j), Shift(r, j - 1));
    }
  }

  lemma Halve(c: nat, p: nat, x: nat)
    ensures (c * (2 * p) + x) / 2 == c * p + x / 2
  {
    var m := c * p;
    assert c * (2 * p) == 2 * m;
  }

  /** Carries `node`, at position `pos` of the bottom row, `k` levels up its authentication path. */
  function Climb(t: Tweak, node: Value, pos: nat, auth: Bytes, k: nat, a: Address): Value
    requires k * N <= |auth|
  {
    if k == 0 then node
    else
      var below := Climb(t, node, pos, auth, k - 1, a);
      var here := a.(word2 := k, word3 := Shift(pos, k));
      if Shift(pos, k - 1) % 2 == 0 then t(here, below + Chunk(auth, k - 1))
      else t(here, Chunk(auth, k - 1) + below)
  }

  /** The node at height `z`, index `i` of the tree over `leaf`. */
  function Node(t: Tweak, leaf: nat -> Value, a: Address, i: nat, z: nat): Value
    decreases z
  {
    if z == 0 then leaf(i)
    else t(a.(word2 := z, word3 := i), Node(t, leaf, a, 2 * i, z - 1) + Node(t, leaf, a, 2 * i + 1, z - 1))
  }

  function Sibling(i: nat): nat {
    if i % 2 == 0 then i + 1 else i - 1
  }

  /** `auth` holds the siblings of the way up from `pos`. */
  ghost predicate Paved(t: Tweak, leaf: nat -> Value, a: Address, pos: nat, auth: Bytes, k: nat) {
    && k * N <= |auth|
    && forall j | 0 <= j < k :: Chunk(auth, j) == Node(t, leaf, a, Sibling(Shift(pos, j)), j)
  }

  /** An honest path leads from a leaf to the root above it. */
  lemma {:induction false} ClimbReaches(t: Tweak, leaf: nat -> Value, a: Address, pos: nat, auth: Bytes, k: nat)
    requires Paved(t, leaf, a, pos, auth, k)
    ensures Climb(t, leaf(pos), pos, auth, k, a) == Node(t, leaf, a, Shift(pos, k), k)
  {
    hide Climb, Node, Shift, Chunk, Sibling, Paved;
    if k == 0 {
      ClimbBase(t, leaf, a, pos, auth);
    } else {
      PavedBelow(t, leaf, a, pos, auth, k);
      ClimbReaches(t, leaf, a, pos, auth, k - 1);
      ClimbStep(t, leaf(pos), pos, auth, k, a);
      Parent(t, leaf, a, Shift(pos, k - 1), k - 1);
    }
  }

  lemma ClimbBase(t: Tweak, leaf: nat -> Value, a: Address, pos: nat, auth: Bytes)
    ensures Climb(t, leaf(pos), pos, auth, 0, a) == Node(t, leaf, a, Shift(pos, 0), 0)
  {
  }

  lemma PavedBelow(t: Tweak, leaf: nat -> Value, a: Address, pos: nat, auth: Bytes, k: nat)
    requires 0 < k && Paved(t, leaf, a, pos, auth, k)
    ensures k * N <= |auth| && Paved(t, leaf, a, pos, auth, k - 1)
    ensures Chunk(auth, k - 1) == Node(t, leaf, a, Sibling(Shift(pos, k - 1)), k - 1)
  {
    hide Node, Shift, Chunk, Sibling;
  }

  lemma ClimbStart(t: Tweak, node: Value, pos: nat, auth: Bytes, a: Address)
    ensures Climb(t, node, pos, auth, 0, a) == node && Shift(pos, 0) == pos
  {
  }

  lemma ClimbStep(t: Tweak, node: Value, pos: nat, auth: Bytes, k: nat, a: Address)
    requires 0 < k && k * N <= |auth|
    ensures Shift(pos, k) == Shift(pos, k - 1) / 2
    ensures var below, other := Climb(t, node, pos, auth, k - 1, a), Chunk(auth, k - 1);
            Climb(t, node, pos, auth, k, a)
            == t(a.(word2 := k, word3 := Shift(pos, k)), if Shift(pos, k - 1) % 2 == 0 then below + other else other + below)
  {
  }

  /** The node above `here`, with its two children in order. */
  lemma Parent(t: Tweak, leaf: nat -> Value, a: Address, here: nat, z: nat)
    ensures var own, other := Node(t, leaf, a, here, z), Node(t, leaf, a, Sibling(here), z);
            Node(t, leaf, a, here / 2, z + 1)
            == t(a.(word2 := z + 1, word3 := here / 2), if here % 2 == 0 then own + other else other + own)
  {
    assert if here % 2 == 0 then here == 2 * (here / 2) else here == 2 * (here / 2) + 1;
  }

  // ----- XMSS and the hypertree

  /** The root a signature implies (Algorithm 11); only the layer and tree of `a` matter. */
  function XmssPk(t: Tweak, idx: nat, sig: Bytes, message: Value, a: Address): Value
    requires |sig| == XMSS_BYTES
  {
    var node := WotsPk(t, sig[..LEN * N], message, Typed(a, WOTS_HASH).(word1 := idx));
    Climb(t, node, idx, sig[LEN * N..], H_PRIME, Typed(a, TREE))
  }

  /** The address of a tree: everything but its layer and number cleared. */
  function TreeAddress(layer: nat, tree: nat): Address {
    Address(layer, tree, WOTS_HASH, 0, 0, 0)
  }

  /** Which tree of layer `j` carries the signature, and which of its leaves. */
  function TreeOf(tree: nat, j: nat): nat {
    Shift(tree, H_PRIME * j)
  }

  function LeafOf(tree: nat, leaf: nat, j: nat): nat {
    if j == 0 then leaf else TreeOf(tree, j - 1) % 512
  }

  /** Shifting is dividing by a power of two. */
  lemma {:induction false} ShiftDivides(n: nat, k: nat)
    ensures Shift(n, k) == n / Pow2(k)
  {
    if k > 0 {
      ShiftDivides(n, k - 1);
      HalveQuotient(n, Pow2(k - 1));
    }
  }

  lemma HalveQuotient(n: nat, p: nat)
    requires p > 0
    ensures n / p / 2 == n / (2 * p)
  {
    var q, r := n / p, n % p;
    var h := q / 2;
    TwiceTimes(h, p);
    if q == h + h {
      DivMod(n, 2 * p, h, r);
    } else {
      assert q == h + h + 1 && (h + h + 1) * p == (h + h) * p + p;
      DivMod(n, 2 * p, h, p + r);
    }
  }

  lemma TwiceTimes(h: nat, p: nat)
    ensures (h + h) * p == h * (2 * p)
  {
  }

  /**
   The way up the layers is the signature's place among all the leaves, as one number:
   each layer's leaf is its next nine bits, and each layer's tree what is above them.
   */
  lemma PathIsThePlace(tree: nat, leaf: nat, j: nat)
    requires leaf < Pow2(9)
    ensures var place := tree * Pow2(9) + leaf;
      LeafOf(tree, leaf, j) == place / Pow2(9 * j) % Pow2(9) && TreeOf(tree, j) == place / Pow2(9 * (j + 1))
  {
    hide Pow2, Shift;
    var place := tree * Pow2(9) + leaf;
    ShiftUnder(tree, 9, leaf, 9);
    ShiftSmall(leaf, 9);
    Pow2Small();
    PowZero();
    ShiftAdds(place, 9, 9 * j);
    ShiftDivides(place, 9 * j);
    ShiftDivides(place, 9 * (j + 1));
    if j > 0 {
      ShiftAdds(place, 9, 9 * (j - 1));
    }
  }

  lemma PowZero()
    ensures Pow2(0) == 1
  {
  }

  /** The XMSS signature of layer `j`. */
  function Layer(sig: Bytes, j: nat): (part: Bytes)
    requires (j + 1) * XMSS_BYTES <= |sig|
    ensures |part| == XMSS_BYTES
  {
    sig[j * XMSS_BYTES..(j + 1) * XMSS_BYTES]
  }

  /** The root reached after layer `j` (Algorithm 13): each layer signs the root of the one below. */
  function HtRoot(t: Tweak, message: Value, sig: Bytes, tree: nat, leaf: nat, j: nat): Value
    requires j < D && |sig| == D * XMSS_BYTES
  {
    var signed := if j == 0 then message else HtRoot(t, message, sig, tree, leaf, j - 1);
    XmssPk(t, LeafOf(tree, leaf, j), Layer(sig, j), signed, TreeAddress(j, TreeOf(tree, j)))
  }

  // ----- FORS

  /** Where leaf `index` of FORS tree `i` stands among all the leaves. */
  function ForsPosition(i: nat, index: nat): nat {
    i * 4096 + index
  }

  /** The part of a FORS signature that is tree `i`'s. */
  function ForsSlice(sig: Bytes, i: nat): (part: Bytes)
    requires |sig| == FORS_BYTES && i < K
    ensures |part| == (A + 1) * N
  {
    sig[i * ((A + 1) * N)..(i + 1) * ((A + 1) * N)]
  }

  function ForsRoot(t: Tweak, sig: Bytes, md: Bytes, a: Address, i: nat): Value
    requires |sig| == FORS_BYTES && |md| >= 21 && i < K
  {
    var part := ForsSlice(sig, i);
    var pos := ForsPosition(i, Digit(md, A, i));
    Climb(t, t(a.(word2 := 0, word3 := pos), part[..N]), pos, part[N..], A, a)
  }

  /** The FORS public key a signature implies (Algorithm 17). */
  function ForsPk(t: Tweak, sig: Bytes, md: Bytes, a: Address): Value
    requires |sig| == FORS_BYTES && |md| >= 21
  {
    t(Typed(a, FORS_ROOTS).(word1 := a.word1),
      Flat(seq(K, i requires 0 <= i < K => ForsRoot(t, sig, md, a, i))))
  }

  // ----- the whole verifier

  type MessageDigest = d: Bytes | |d| == M witness Zeros(M)

  /** The hash functions, all of them arbitrary. `tweak` takes PK.seed. */
  datatype Hashes = Hashes(
    tweak: Bytes -> Tweak,
    hmsg: (Bytes, Bytes, Bytes, Bytes) -> MessageDigest,
    prfMsg: (Bytes, Bytes, Bytes) -> Value)

  /** Algorithm 20 lines 9 to 13: the FORS digest, the tree, and the leaf within it. */
  function SplitDigest(d: MessageDigest): (r: (Bytes, nat, nat))
    ensures |r.0| == 21 && r.1 < Pow2(54) && r.2 < 512
  {
    (d[..21], ToInt(d[21..28]) % Pow2(54), ToInt(d[28..]) % 512)
  }

  /** The three parts are the digest as one number: the FORS bits on top, then 56 bits that hold the tree, then 16 that hold the leaf. */
  lemma SplitIsTheNumber(d: MessageDigest) returns (x: nat, y: nat)
    ensures x < Pow2(56) && y < Pow2(16)
    ensures var (md, tree, leaf) := SplitDigest(d);
            ToInt(d) == (ToInt(md) * Pow2(56) + x) * Pow2(16) + y && tree == x % Pow2(54) && leaf == y % Pow2(9)
  {
    hide ToInt, Pow2;
    Pow2Small();
    x, y := ToInt(d[21..28]), ToInt(d[28..]);
    ToIntBelow(d[21..28]);
    ToIntBelow(d[28..]);
    ToIntJoins(d[..21], d[21..28]);
    ToIntJoins(d[..28], d[28..]);
    assert d[..21] + d[21..28] == d[..28] && d[..28] + d[28..] == d;
  }

  datatype Refusal = WrongLength | ContextTooLong | Mismatch

  function ForsAddress(tree: nat, leaf: nat): Address {
    Address(0, tree, FORS_TREE, leaf, 0, 0)
  }

  /** The root of the hypertree a signature leads to. */
  function ImpliedRoot(h: Hashes, message: Bytes, sig: Bytes, seed: Bytes, root: Bytes): Value
    requires |sig| == SIGNATURE_BYTES
  {
    var t := h.tweak(seed);
    var (md, tree, leaf) := SplitDigest(h.hmsg(sig[..N], seed, root, message));
    var pk := ForsPk(t, sig[N..N + FORS_BYTES], md, ForsAddress(tree, leaf));
    HtRoot(t, pk, sig[N + FORS_BYTES..], tree, leaf, D - 1)
  }

  /** Algorithm 20, `slh_verify_internal`. */
  function Verify(h: Hashes, message: Bytes, sig: Bytes, pk: Bytes): Result<(), Refusal>
    requires |pk| == 2 * N
  {
    if |sig| != SIGNATURE_BYTES then Err(WrongLength)
    else if ImpliedRoot(h, message, sig, pk[..N], pk[N..]) == pk[N..] then Ok(())
    else Err(Mismatch)
  }
}
