/**
 The verifier a second time, from the bottom up as FIPS 205 runs it: the digest as one
 number, every hash call under an address of its own, chains and paths climbed step by
 step. It is the same function.
 */
module SlhReference {
  import opened Words
  import opened Digits
  import opened SlhDsa

  // ----- addresses (FIPS 205 section 4.2)

  /** Every hash call that making or checking a signature under one key can take part in. */
  datatype Call =
    | Step(layer: nat, tree: nat, leaf: nat, chain: nat, position: nat)
    | Ends(layer: nat, tree: nat, leaf: nat)
    | Inner(layer: nat, tree: nat, height: nat, index: nat)
    | Few(tree: nat, leaf: nat, height: nat, index: nat)
    | Roots(tree: nat, leaf: nat)
    | ChainSecret(layer: nat, tree: nat, leaf: nat, chain: nat)
    | FewSecret(tree: nat, leaf: nat, index: nat)

  function Place(c: Call): Address {
    match c
    case Step(layer, tree, leaf, chain, position) => Address(layer, tree, 0, leaf, chain, position)
    case Ends(layer, tree, leaf) => Address(layer, tree, 1, leaf, 0, 0)
    case Inner(layer, tree, height, index) => Address(layer, tree, 2, 0, height, index)
    case Few(tree, leaf, height, index) => Address(0, tree, 3, leaf, height, index)
    case Roots(tree, leaf) => Address(0, tree, 4, leaf, 0, 0)
    case ChainSecret(layer, tree, leaf, chain) => Address(layer, tree, 5, leaf, chain, 0)
    case FewSecret(tree, leaf, index) => Address(0, tree, 6, leaf, 0, index)
  }

  function Inners(layer: nat, tree: nat): (nat, nat) -> Address {
    (z: nat, i: nat) => Place(Inner(layer, tree, z, i))
  }

  function Fews(tree: nat, leaf: nat): (nat, nat) -> Address {
    (z: nat, i: nat) => Place(Few(tree, leaf, z, i))
  }

  /** No two calls share an address. */
  lemma PlacesApart(c: Call, d: Call)
    requires Place(c) == Place(d)
    ensures c == d
  {
  }

  // ----- the 22 bytes of an address (FIPS 205 section 11.2)

  /** `n` in `width` bytes, most significant first; higher bytes are dropped. */
  function ToBytes(n: nat, width: nat): (x: Bytes)
    ensures |x| == width
  {
    if width == 0 then [] else ToBytes(n / 256, width - 1) + [n % 256]
  }

  lemma {:induction false} ToBytesReads(n: nat, width: nat)
    requires n < Span(width)
    ensures ToInt(ToBytes(n, width)) == n
  {
    if width > 0 {
      ToBytesReads(n / 256, width - 1);
      assert ToBytes(n, width)[..width - 1] == ToBytes(n / 256, width - 1);
    }
  }

  function Compressed(a: Address): (x: Bytes)
    ensures |x| == 22
  {
    ToBytes(a.layer, 1) + ToBytes(a.tree, 8) + ToBytes(a.kind, 1) + ToBytes(a.word1, 4) + ToBytes(a.word2, 4) + ToBytes(a.word3, 4)
  }

  ghost predicate Narrow(a: Address) {
    a.layer < 256 && a.tree < U64 && a.kind < 256 && a.word1 < U32 && a.word2 < U32 && a.word3 < U32
  }

  /** The bytes of an address whose fields fit tell it. */
  lemma CompressedTells(a: Address, b: Address)
    requires Narrow(a) && Narrow(b) && Compressed(a) == Compressed(b)
    ensures a == b
  {
    hide ToBytes, ToInt;
    var x, y := Compressed(a), Compressed(b);
    FieldReads(a);
    FieldReads(b);
    assert x[..1] == y[..1] && x[1..9] == y[1..9] && x[9..10] == y[9..10] && x[10..14] == y[10..14] && x[14..18] == y[14..18] && x[18..] == y[18..];
  }

  lemma FieldReads(a: Address)
    requires Narrow(a)
    ensures var x := Compressed(a);
      && ToInt(x[..1]) == a.layer && ToInt(x[1..9]) == a.tree && ToInt(x[9..10]) == a.kind
      && ToInt(x[10..14]) == a.word1 && ToInt(x[14..18]) == a.word2 && ToInt(x[18..]) == a.word3
  {
    hide ToBytes, ToInt;
    Spans();
    assert Span(1) == 256 * Span(0);
    ToBytesReads(a.layer, 1);
    ToBytesReads(a.tree, 8);
    ToBytesReads(a.kind, 1);
    ToBytesReads(a.word1, 4);
    ToBytesReads(a.word2, 4);
    ToBytesReads(a.word3, 4);
    var x := Compressed(a);
    assert x[..1] == ToBytes(a.layer, 1) && x[1..9] == ToBytes(a.tree, 8) && x[9..10] == ToBytes(a.kind, 1);
    assert x[10..14] == ToBytes(a.word1, 4) && x[14..18] == ToBytes(a.word2, 4) && x[18..] == ToBytes(a.word3, 4);
  }

  /** The calls a key's trees have: seven layers of trees of 512 leaves, each under the 2^54 of the bottom, and 14 FORS trees of 4096. */
  ghost predicate Possible(c: Call) {
    match c
    case Step(layer, tree, leaf, chain, position) => layer < 7 && tree < U64 && leaf < 512 && chain < 35 && position < 15
    case Ends(layer, tree, leaf) => layer < 7 && tree < U64 && leaf < 512
    case Inner(layer, tree, height, index) => layer < 7 && tree < U64 && height <= 9 && index < 512
    case Few(tree, leaf, height, index) => tree < U64 && leaf < 512 && height <= 12 && index < 14 * 4096
    case Roots(tree, leaf) => tree < U64 && leaf < 512
    case ChainSecret(layer, tree, leaf, chain) => layer < 7 && tree < U64 && leaf < 512 && chain < 35
    case FewSecret(tree, leaf, index) => tree < U64 && leaf < 512 && index < 14 * 4096
  }

  /** No two of them share the bytes of an address. */
  lemma CallsApart(c: Call, d: Call)
    requires Possible(c) && Possible(d) && Compressed(Place(c)) == Compressed(Place(d))
    ensures c == d
  {
    hide Compressed;
    CompressedTells(Place(c), Place(d));
    PlacesApart(c, d);
  }

  // ----- one-time signatures

  /** A chain value at `position`, carried on to the end. */
  function Carry(t: Tweak, layer: nat, tree: nat, leaf: nat, chain: nat, x: Value, position: nat): Value
    decreases 15 - position
  {
    if position >= 15 then x else Carry(t, layer, tree, leaf, chain, t(Place(Step(layer, tree, leaf, chain, position)), x), position + 1)
  }

  lemma {:induction false} CarryIsChain(t: Tweak, layer: nat, tree: nat, leaf: nat, chain: nat, x: Value, position: nat, a: Address)
    requires position <= 15 && a == Address(layer, tree, WOTS_HASH, leaf, chain, a.word3)
    ensures Carry(t, layer, tree, leaf, chain, x, position) == Chain(t, x, position, 15 - position, a)
    decreases 15 - position
  {
    if position < 15 {
      var y := t(Place(Step(layer, tree, leaf, chain, position)), x);
      CarryIsChain(t, layer, tree, leaf, chain, y, position + 1, a);
      assert Chain(t, x, position, 0, a) == x;
      assert Chain(t, x, position, 1, a) == y;
      ChainComposes(t, x, position, 1, 14 - position, a);
    }
  }

  /** The nibbles of a message, high one first. */
  function Nibble(message: Value, i: nat): nat
    requires i < 32
  {
    if i % 2 == 0 then message[i / 2] / 16 else message[i / 2] % 16
  }

  /** What the nibbles from `i` on fall short of fifteen each. */
  function Missing(message: Value, i: nat): nat
    requires i <= 32
    decreases 32 - i
  {
    if i == 32 then 0 else 15 - Nibble(message, i) + Missing(message, i + 1)
  }

  /** Where chain `i` was left: the message's nibbles, then the three digits of what they are missing. */
  function Left(message: Value, i: nat): (n: nat)
    requires i < 35
  {
    var sum := Missing(message, 0);
    if i < 32 then Nibble(message, i) else if i == 32 then sum / 256 else if i == 33 then sum / 16 % 16 else sum % 16
  }

  lemma {:induction false} MissingIsShortfall(message: Value, i: nat)
    requires i <= 32
    ensures Shortfall(MessageDigits(message)[..i]) + Missing(message, i) == Missing(message, 0)
  {
    hide Digit;
    var ds := MessageDigits(message);
    if i == 0 {
      assert ds[..0] == [];
    } else {
      MissingIsShortfall(message, i - 1);
      NibbleOf(message, i - 1);
      assert ds[..i][..i - 1] == ds[..i - 1] && ds[..i][i - 1] == Nibble(message, i - 1);
    }
  }

  lemma LeftIsDigit(message: Value, i: nat)
    requires i < LEN
    ensures Left(message, i) == WotsDigits(message)[i] <= 15
  {
    hide Digit, Shortfall;
    MissingIsShortfall(message, 32);
    assert MessageDigits(message)[..32] == MessageDigits(message);
    MessageDigitsSmall(message);
    if i < 32 {
      NibbleOf(message, i);
      assert WotsDigits(message)[i] == MessageDigits(message)[i];
    }
  }

  // ----- paths

  /** A node at height `j` and its index there, carried up to height `k` past one sibling a level. */
  function Rise(t: Tweak, place: (nat, nat) -> Address, node: Value, index: nat, j: nat, k: nat, auth: Bytes): Value
    requires j <= k && k * N <= |auth|
    decreases k - j
  {
    if j == k then node
    else
      var other := auth[16 * j..16 * j + 16];
      Rise(t, place, t(place(j + 1, index / 2), if index % 2 == 0 then node + other else other + node), index / 2, j + 1, k, auth)
  }

  lemma {:induction false} RiseIsClimb(t: Tweak, place: (nat, nat) -> Address, node: Value, pos: nat, j: nat, k: nat, auth: Bytes, a: Address)
    requires j <= k && k * N <= |auth| && forall z, i :: place(z, i) == a.(word2 := z, word3 := i)
    ensures Rise(t, place, Climb(t, node, pos, auth, j, a), Shift(pos, j), j, k, auth) == Climb(t, node, pos, auth, k, a)
    decreases k - j
  {
    hide Climb, Shift;
    if j < k {
      ClimbStep(t, node, pos, auth, j + 1, a);
      assert Chunk(auth, j) == auth[16 * j..16 * j + 16];
      RiseIsClimb(t, place, node, pos, j + 1, k, auth, a);
    }
  }

  // ----- one tree, and the tower of them

  /** The root one layer's signature leads to. */
  function TreeRoot(t: Tweak, layer: nat, tree: nat, leaf: nat, sig: Bytes, message: Value): Value
    requires |sig| == XMSS_BYTES
  {
    var ends: seq<Value> := seq(35, i requires 0 <= i < 35 => Carry(t, layer, tree, leaf, i, sig[16 * i..16 * i + 16], Left(message, i)));
    Rise(t, Inners(layer, tree), t(Place(Ends(layer, tree, leaf)), Flat(ends)), leaf, 0, 9, sig[560..])
  }

  lemma TreeRootIs(t: Tweak, layer: nat, tree: nat, leaf: nat, sig: Bytes, message: Value)
    requires |sig| == XMSS_BYTES
    ensures TreeRoot(t, layer, tree, leaf, sig, message) == XmssPk(t, leaf, sig, message, TreeAddress(layer, tree))
  {
    hide Carry, Chain, Left, WotsDigits, Climb, Rise;
    var a := Typed(TreeAddress(layer, tree), WOTS_HASH).(word1 := leaf);
    var ends: seq<Value> := seq(35, i requires 0 <= i < 35 => Carry(t, layer, tree, leaf, i, sig[16 * i..16 * i + 16], Left(message, i)));
    forall i | 0 <= i < LEN
      ensures ends[i] == WotsEnd(t, sig[..LEN * N], message, a, i)
    {
      LeftIsDigit(message, i);
      assert Chunk(sig[..LEN * N], i) == sig[16 * i..16 * i + 16];
      CarryIsChain(t, layer, tree, leaf, i, sig[16 * i..16 * i + 16], Left(message, i), a.(word2 := i));
    }
    assert ends == WotsEnds(t, sig[..LEN * N], message, a);
    var node := WotsPk(t, sig[..LEN * N], message, a);
    ClimbStart(t, node, leaf, sig[LEN * N..], Typed(TreeAddress(layer, tree), TREE));
    RiseIsClimb(t, Inners(layer, tree), node, leaf, 0, 9, sig[LEN * N..], Typed(TreeAddress(layer, tree), TREE));
  }

  /** From layer `layer` up: `place` is the leaf among all of that layer's, nine bits of it a leaf of one tree. */
  function Tower(t: Tweak, place: nat, sig: Bytes, message: Value, layer: nat): Value
    requires layer <= 7 && |sig| == 7 * 704
    decreases 7 - layer
  {
    if layer == 7 then message
    else
      var part := sig[704 * layer..704 * layer + 704];
      Tower(t, place / 512, sig, TreeRoot(t, layer, place / 512, place % 512, part, message), layer + 1)
  }

  lemma {:induction false} TowerIsHtRoot(t: Tweak, message: Value, sig: Bytes, tree: nat, leaf: nat, j: nat)
    requires j < 7 && |sig| == D * XMSS_BYTES && leaf < 512
    ensures var signed := if j == 0 then message else HtRoot(t, message, sig, tree, leaf, j - 1);
      Tower(t, Shift(tree * 512 + leaf, 9 * j), sig, signed, j) == HtRoot(t, message, sig, tree, leaf, 6)
    decreases 7 - j
  {
    hide XmssPk, Shift, TreeRoot;
    var place := Shift(tree * 512 + leaf, 9 * j);
    PlaceSplits(tree, leaf, j);
    var signed := if j == 0 then message else HtRoot(t, message, sig, tree, leaf, j - 1);
    var part := sig[704 * j..704 * j + 704];
    assert part == Layer(sig, j);
    TreeRootIs(t, j, place / 512, place % 512, part, signed);
    if j < 6 {
      TowerIsHtRoot(t, message, sig, tree, leaf, j + 1);
    }
  }

  /** Nine bits of the place are this layer's leaf, and the rest is its tree. */
  lemma PlaceSplits(tree: nat, leaf: nat, j: nat)
    requires leaf < 512
    ensures var place := Shift(tree * 512 + leaf, 9 * j);
      place % 512 == LeafOf(tree, leaf, j) && place / 512 == TreeOf(tree, j) == Shift(tree * 512 + leaf, 9 * (j + 1))
  {
    hide Shift, Pow2;
    Pow2Small();
    PathIsThePlace(tree, leaf, j);
    var n := tree * 512 + leaf;
    ShiftDivides(n, 9 * j);
    ShiftDivides(n, 9 * (j + 1));
    DivDiv(n, Pow2(9 * j), 512);
    Pow2Adds(9 * j, 9);
  }

  // ----- the few-time signature

  /** Which leaf of tree `i` a digest opens: twelve bits each from the top. */
  function Opened(number: nat, i: nat): nat
    requires i < 14
  {
    number / Pow2(228 - 12 * i) % 4096
  }

  /** The key a FORS signature leads to under the digest `number`. */
  function Forest(t: Tweak, tree: nat, leaf: nat, sig: Bytes, number: nat): Value
    requires |sig| == FORS_BYTES
  {
    t(Place(Roots(tree, leaf)), Flat(seq(14, i requires 0 <= i < 14 => Grown(t, tree, leaf, sig[208 * i..208 * i + 208], i * 4096 + Opened(number, i)))))
  }

  /** One tree's root: the secret opened at `at`, and its path. */
  function Grown(t: Tweak, tree: nat, leaf: nat, part: Bytes, at: nat): Value
    requires |part| == 208
  {
    Rise(t, Fews(tree, leaf), t(Place(Few(tree, leaf, 0, at)), part[..16]), at, 0, 12, part[16..])
  }

  lemma ForestIs(t: Tweak, tree: nat, leaf: nat, sig: Bytes, md: Bytes, number: nat)
    requires |sig| == FORS_BYTES && |md| >= 21 && forall i | 0 <= i < 14 :: Opened(number, i) == Digit(md, 12, i)
    ensures Forest(t, tree, leaf, sig, number) == ForsPk(t, sig, md, ForsAddress(tree, leaf))
  {
    hide Rise, Climb, Digit, Opened;
    var a := ForsAddress(tree, leaf);
    var roots := seq(14, i requires 0 <= i < 14 => Grown(t, tree, leaf, sig[208 * i..208 * i + 208], i * 4096 + Opened(number, i)));
    forall i | 0 <= i < K
      ensures roots[i] == ForsRoot(t, sig, md, a, i)
    {
      var part := ForsSlice(sig, i);
      assert part == sig[208 * i..208 * i + 208];
      var at := ForsPosition(i, Digit(md, A, i));
      var node := t(a.(word2 := 0, word3 := at), part[..N]);
      ClimbStart(t, node, at, part[N..], a);
      RiseIsClimb(t, Fews(tree, leaf), node, at, 0, 12, part[N..], a);
    }
    assert roots == seq(K, i requires 0 <= i < K => ForsRoot(t, sig, md, a, i));
  }

  // ----- the whole verifier

  /** The digest's number opens one leaf of each FORS tree and names one leaf of the bottom layer. */
  lemma SplitIsNumber(d: MessageDigest)
    ensures var (md, tree, leaf) := SplitDigest(d);
      && tree == ToInt(d) / Pow2(16) % Pow2(54) && leaf == ToInt(d) % 512
      && forall i | 0 <= i < 14 :: Need(i, 12) <= |md| && Opened(ToInt(d), i) == Digit(md, 12, i)
  {
    hide ToInt, Pow2, Digit;
    var (md, tree, leaf) := SplitDigest(d);
    var x, y := SplitIsTheNumber(d);
    var top := ToInt(md);
    Pow2Small();
    var above := top * Pow2(56) + x;
    DivMod(ToInt(d), Pow2(16), above, y);
    Pow2Adds(2, 54);
    ModDrops(top, Pow2(2), Pow2(54), x);
    Pow2Adds(7, 9);
    ModDrops(above, Pow2(7), Pow2(9), y);
    DivMod(above, Pow2(56), top, x);
    forall i | 0 <= i < 14
      ensures Need(i, 12) <= |md| && Opened(ToInt(d), i) == Digit(md, 12, i)
    {
      OpenedIsDigit(md, ToInt(d), i);
    }
  }

  lemma OpenedIsDigit(md: Bytes, number: nat, i: nat)
    requires |md| == 21 && number / Pow2(16) / Pow2(56) == ToInt(md) && i < 14
    ensures Need(i, 12) <= |md| && Opened(number, i) == Digit(md, 12, i)
  {
    hide ToInt, Pow2, Digit;
    Pow2Small();
    DigitOfWhole(md, 12, i);
    Pow2Adds(16, 56);
    DivDiv(number, Pow2(16), Pow2(56));
    Pow2Adds(72, 156 - 12 * i);
    DivDiv(number, Pow2(72), Pow2(156 - 12 * i));
  }

  /** Algorithm 20, with the digest one number. */
  function Reference(h: Hashes, message: Bytes, sig: Bytes, pk: Bytes): Result<(), Refusal>
    requires |pk| == 32
  {
    if |sig| != 7856 then Err(WrongLength)
    else
      var t, number := h.tweak(pk[..16]), ToInt(h.hmsg(sig[..16], pk[..16], pk[16..], message));
      var tree, leaf := number / Pow2(16) % Pow2(54), number % 512;
      var key := Forest(t, tree, leaf, sig[16..2928], number);
      if Tower(t, tree * 512 + leaf, sig[2928..], key, 0) == pk[16..] then Ok(()) else Err(Mismatch)
  }

  /** The verifier is the reference, on every input and for every choice of hash functions. */
  lemma VerifyIsReference(h: Hashes, message: Bytes, sig: Bytes, pk: Bytes)
    requires |pk| == 2 * N
    ensures Verify(h, message, sig, pk) == Reference(h, message, sig, pk)
  {
    hide ToInt, Pow2, Digit, Opened, Forest, Tower, HtRoot, ForsPk, SplitDigest;
    if |sig| == SIGNATURE_BYTES {
      var d := h.hmsg(sig[..N], pk[..N], pk[N..], message);
      var t := h.tweak(pk[..N]);
      var (md, tree, leaf) := SplitDigest(d);
      SplitIsNumber(d);
      ForestIs(t, tree, leaf, sig[N..N + FORS_BYTES], md, ToInt(d));
      var key := ForsPk(t, sig[N..N + FORS_BYTES], md, ForsAddress(tree, leaf));
      ShiftNone(tree * 512 + leaf);
      TowerIsHtRoot(t, key, sig[N + FORS_BYTES..], tree, leaf, 0);
    }
  }

  lemma ShiftNone(n: nat)
    ensures Shift(n, 0) == n
  {
  }
}
