/** The honest signer (FIPS 205 algorithms 6 to 19), and why the verifier accepts it. */
module SlhSigner {
  import opened Words
  import opened Digits
  import opened SlhDsa
  import SlhReference

  // ----- WOTS+

  function WotsSecret(t: Tweak, sk: Bytes, a: Address, i: nat): Value {
    t(Typed(a, WOTS_PRF).(word1 := a.word1, word2 := i), sk)
  }

  /** Algorithm 6, `wots_pkGen`. */
  function WotsPkGen(t: Tweak, sk: Bytes, a: Address): Value {
    t(Typed(a, WOTS_PK).(word1 := a.word1),
      Flat(seq(LEN, i requires 0 <= i < LEN => Chain(t, WotsSecret(t, sk, a, i), 0, W - 1, a.(word2 := i)))))
  }

  /** Algorithm 7, `wots_sign`. */
  function WotsSign(t: Tweak, message: Value, sk: Bytes, a: Address): (sig: seq<Value>)
    ensures |sig| == LEN
  {
    seq(LEN, i requires 0 <= i < LEN => Chain(t, WotsSecret(t, sk, a, i), 0, WotsDigits(message)[i], a.(word2 := i)))
  }

  /** Carrying every signed value to the end of its chain gives the public key, whatever was signed. */
  lemma WotsRecovers(t: Tweak, message: Value, sk: Bytes, a: Address)
    ensures WotsPk(t, Flat(WotsSign(t, message, sk, a)), message, a) == WotsPkGen(t, sk, a)
  {
    hide WotsDigits;
    var sig := WotsSign(t, message, sk, a);
    var full := seq(LEN, i requires 0 <= i < LEN => Chain(t, WotsSecret(t, sk, a, i), 0, W - 1, a.(word2 := i)));
    forall i | 0 <= i < LEN
      ensures WotsEnd(t, Flat(sig), message, a, i) == full[i]
    {
      ChunkOfFlat(sig, [], i);
      assert Flat(sig) + [] == Flat(sig);
      var digit := WotsDigits(message)[i];
      ChainComposes(t, WotsSecret(t, sk, a, i), 0, digit, W - 1 - digit, a.(word2 := i));
    }
    assert WotsEnds(t, Flat(sig), message, a) == full;
  }

  // ----- XMSS

  /** The bottom row of an XMSS tree: the WOTS+ public keys. */
  function XmssLeaf(t: Tweak, sk: Bytes, a: Address): nat -> Value {
    i => WotsPkGen(t, sk, Typed(a, WOTS_HASH).(word1 := i))
  }

  /** Algorithm 9, `xmss_node`. */
  function XmssNode(t: Tweak, sk: Bytes, i: nat, z: nat, a: Address): Value {
    Node(t, XmssLeaf(t, sk, a), Typed(a, TREE), i, z)
  }

  function XmssPath(t: Tweak, sk: Bytes, idx: nat, a: Address): (path: seq<Value>)
    ensures |path| == H_PRIME
  {
    seq(H_PRIME, j requires 0 <= j < H_PRIME => XmssNode(t, sk, Sibling(Shift(idx, j)), j, a))
  }

  /** Algorithm 10, `xmss_sign`. */
  function XmssSign(t: Tweak, message: Value, sk: Bytes, idx: nat, a: Address): (sig: Bytes)
    ensures |sig| == XMSS_BYTES
  {
    Flat(WotsSign(t, message, sk, Typed(a, WOTS_HASH).(word1 := idx))) + Flat(XmssPath(t, sk, idx, a))
  }

  /** The root a tree's signature implies is the tree's root, whatever was signed by whichever leaf. */
  lemma XmssRecovers(t: Tweak, message: Value, sk: Bytes, idx: nat, a: Address)
    requires idx < 512
    ensures XmssPk(t, idx, XmssSign(t, message, sk, idx, a), message, a) == XmssNode(t, sk, 0, H_PRIME, a)
  {
    hide WotsPk, WotsSign, WotsPkGen, Climb, Node, Shift;
    var sig := XmssSign(t, message, sk, idx, a);
    var w := Typed(a, WOTS_HASH).(word1 := idx);
    var wots, path := Flat(WotsSign(t, message, sk, w)), XmssPath(t, sk, idx, a);
    assert sig[..LEN * N] == wots && sig[LEN * N..] == Flat(path);
    WotsRecovers(t, message, sk, w);
    forall j | 0 <= j < H_PRIME
      ensures Chunk(Flat(path), j) == Node(t, XmssLeaf(t, sk, a), Typed(a, TREE), Sibling(Shift(idx, j)), j)
    {
      ChunkOfFlat(path, [], j);
      assert Flat(path) + [] == Flat(path);
    }
    ClimbReaches(t, XmssLeaf(t, sk, a), Typed(a, TREE), idx, Flat(path), H_PRIME);
    Pow2Small();
    ShiftSmall(idx, H_PRIME);
  }

  // ----- the hypertree

  /** The root of the tree that signs at layer `j`. */
  function LayerRoot(t: Tweak, sk: Bytes, tree: nat, j: nat): Value {
    XmssNode(t, sk, 0, H_PRIME, TreeAddress(j, TreeOf(tree, j)))
  }

  /** What layer `j` signs: the message, or the root the signature below it implies. */
  function LayerMessage(t: Tweak, message: Value, sk: Bytes, tree: nat, leaf: nat, j: nat): Value
    decreases j, 0
  {
    if j == 0 then message
    else
      var below := LayerSign(t, message, sk, tree, leaf, j - 1);
      XmssPk(t, LeafOf(tree, leaf, j - 1), below, LayerMessage(t, message, sk, tree, leaf, j - 1),
             TreeAddress(j - 1, TreeOf(tree, j - 1)))
  }

  function LayerSign(t: Tweak, message: Value, sk: Bytes, tree: nat, leaf: nat, j: nat): (sig: Bytes)
    ensures |sig| == XMSS_BYTES
    decreases j, 1
  {
    XmssSign(t, LayerMessage(t, message, sk, tree, leaf, j), sk, LeafOf(tree, leaf, j), TreeAddress(j, TreeOf(tree, j)))
  }

  lemma LeafSmall(tree: nat, leaf: nat, j: nat)
    requires leaf < 512
    ensures LeafOf(tree, leaf, j) < 512
  {
  }

  /** What each layer recomputes from the signature below is that tree's root. */
  lemma LayerSignsRoot(t: Tweak, message: Value, sk: Bytes, tree: nat, leaf: nat, j: nat)
    requires leaf < 512
    ensures LayerMessage(t, message, sk, tree, leaf, j) == if j == 0 then message else LayerRoot(t, sk, tree, j - 1)
  {
    hide XmssNode, XmssPk, XmssSign;
    if j > 0 {
      LeafSmall(tree, leaf, j - 1);
      XmssRecovers(t, LayerMessage(t, message, sk, tree, leaf, j - 1), sk, LeafOf(tree, leaf, j - 1),
                   TreeAddress(j - 1, TreeOf(tree, j - 1)));
    }
  }

  function LayerSigns(t: Tweak, message: Value, sk: Bytes, tree: nat, leaf: nat): (parts: seq<Bytes>)
    ensures |parts| == D && forall j | 0 <= j < D :: |parts[j]| == XMSS_BYTES
  {
    seq(D, j requires 0 <= j < D => LayerSign(t, message, sk, tree, leaf, j))
  }

  /** Algorithm 12, `ht_sign`: one XMSS signature per layer, each over the root of the one below. */
  function HtSign(t: Tweak, message: Value, sk: Bytes, tree: nat, leaf: nat): (sig: Bytes)
    ensures |sig| == D * XMSS_BYTES
  {
    ConcatSize(LayerSigns(t, message, sk, tree, leaf), XMSS_BYTES);
    Concat(LayerSigns(t, message, sk, tree, leaf))
  }

  /** Layer by layer the verifier reaches the root each layer has. */
  lemma {:induction false} HtRecovers(t: Tweak, message: Value, sk: Bytes, tree: nat, leaf: nat, j: nat)
    requires j < D && leaf < 512
    ensures HtRoot(t, message, HtSign(t, message, sk, tree, leaf), tree, leaf, j) == LayerRoot(t, sk, tree, j)
  {
    hide Concat, XmssNode, XmssPk, XmssSign, LayerMessage;
    if j > 0 {
      HtRecovers(t, message, sk, tree, leaf, j - 1);
    }
    LayerSignsRoot(t, message, sk, tree, leaf, j);
    ConcatAt(LayerSigns(t, message, sk, tree, leaf), XMSS_BYTES, j);
    LeafSmall(tree, leaf, j);
    XmssRecovers(t, LayerMessage(t, message, sk, tree, leaf, j), sk, LeafOf(tree, leaf, j), TreeAddress(j, TreeOf(tree, j)));
  }

  // ----- FORS

  function ForsSecret(t: Tweak, sk: Bytes, a: Address, idx: nat): Value {
    t(Typed(a, FORS_PRF).(word1 := a.word1, word3 := idx), sk)
  }

  function ForsLeaf(t: Tweak, sk: Bytes, a: Address): nat -> Value {
    i => t(a.(word2 := 0, word3 := i), ForsSecret(t, sk, a, i))
  }

  /** The secret and the path of one FORS tree (Algorithm 16). */
  function ForsPart(t: Tweak, md: Bytes, sk: Bytes, a: Address, i: nat): (part: seq<Value>)
    requires |md| >= 21 && i < K
    ensures |part| == A + 1
  {
    var index := Digit(md, A, i);
    [ForsSecret(t, sk, a, ForsPosition(i, index))]
    + seq(A, j requires 0 <= j < A =>
            Node(t, ForsLeaf(t, sk, a), a, ForsSibling(i, index, j), j))
  }

  /** The sibling at height `j` of the way up from leaf `index` of tree `i`, among all the trees' nodes. */
  function ForsSibling(i: nat, index: nat, j: nat): nat
    requires j <= A
  {
    i * Pow2(A - j) + Sibling(Shift(index, j))
  }

  function ForsParts(t: Tweak, md: Bytes, sk: Bytes, a: Address): (parts: seq<Bytes>)
    requires |md| >= 21
    ensures |parts| == K && forall i | 0 <= i < K :: |parts[i]| == (A + 1) * N
  {
    seq(K, i requires 0 <= i < K => Flat(ForsPart(t, md, sk, a, i)))
  }

  /** Algorithm 16, `fors_sign`. */
  function ForsSign(t: Tweak, md: Bytes, sk: Bytes, a: Address): (sig: Bytes)
    requires |md| >= 21
    ensures |sig| == FORS_BYTES
  {
    ConcatSize(ForsParts(t, md, sk, a), (A + 1) * N);
    Concat(ForsParts(t, md, sk, a))
  }

  lemma ForsSignAt(t: Tweak, md: Bytes, sk: Bytes, a: Address, i: nat)
    requires |md| >= 21 && i < K
    ensures ForsSlice(ForsSign(t, md, sk, a), i) == Flat(ForsPart(t, md, sk, a, i))
  {
    hide ForsPart, Concat;
    ConcatAt(ForsParts(t, md, sk, a), (A + 1) * N, i);
  }

  /** The FORS public key: the roots of all the trees. It mentions no message. */
  function ForsKey(t: Tweak, sk: Bytes, a: Address): Value {
    t(Typed(a, FORS_ROOTS).(word1 := a.word1),
      Flat(seq(K, i requires 0 <= i < K => Node(t, ForsLeaf(t, sk, a), a, i, A))))
  }

  lemma SiblingUnder(c: nat, k: nat, r: nat, j: nat)
    requires j < k
    ensures Sibling(Shift(c * Pow2(k) + r, j)) == c * Pow2(k - j) + Sibling(Shift(r, j))
  {
    ShiftUnder(c, k, r, j);
    assert Pow2(k - j) == 2 * Pow2(k - j - 1);
    hide Pow2, Shift, Sibling;
    SiblingAbove(c, Pow2(k - j - 1), Shift(r, j));
  }

  lemma SiblingAbove(c: nat, p: nat, x: nat)
    ensures Sibling(c * (2 * p) + x) == c * (2 * p) + Sibling(x)
  {
    var m := c * p;
    assert c * (2 * p) == 2 * m;
  }

  lemma DigitSmall(md: Bytes, i: nat)
    requires |md| >= 21 && i < K
    ensures Need(i, A) <= |md| && Digit(md, A, i) < 4096
  {
    Pow2Small();
  }

  lemma ForsRootRecovers(t: Tweak, md: Bytes, sk: Bytes, a: Address, i: nat)
    requires |md| >= 21 && i < K
    ensures ForsRoot(t, ForsSign(t, md, sk, a), md, a, i) == Node(t, ForsLeaf(t, sk, a), a, i, A)
  {
    hide Digit, Climb, Node, Shift, ForsSign;
    DigitSmall(md, i);
    var index := Digit(md, A, i);
    var pos := ForsPosition(i, index);
    var part := ForsPart(t, md, sk, a, i);
    ForsSignAt(t, md, sk, a, i);
    ChunkOfFlat(part, [], 0);
    assert Flat(part) + [] == Flat(part);
    assert Flat(part)[..N] == Chunk(Flat(part), 0);
    var auth := Flat(part)[N..];
    Pow2Small();
    forall j | 0 <= j < A
      ensures Chunk(auth, j) == Node(t, ForsLeaf(t, sk, a), a, Sibling(Shift(pos, j)), j)
    {
      ChunkOfFlat(part, [], j + 1);
      assert Chunk(auth, j) == Chunk(Flat(part), j + 1);
      SiblingUnder(i, A, index, j);
    }
    ClimbReaches(t, ForsLeaf(t, sk, a), a, pos, auth, A);
    ShiftUnder(i, A, index, A);
    ShiftSmall(index, A);
  }

  /** The key a FORS signature implies is the signer's, whatever was signed. */
  lemma ForsRecovers(t: Tweak, md: Bytes, sk: Bytes, a: Address)
    requires |md| >= 21
    ensures ForsPk(t, ForsSign(t, md, sk, a), md, a) == ForsKey(t, sk, a)
  {
    hide ForsRoot, Node, ForsSign;
    var sig := ForsSign(t, md, sk, a);
    forall i | 0 <= i < K
      ensures ForsRoot(t, sig, md, a, i) == Node(t, ForsLeaf(t, sk, a), a, i, A)
    {
      ForsRootRecovers(t, md, sk, a, i);
    }
    assert seq(K, i requires 0 <= i < K => ForsRoot(t, sig, md, a, i))
        == seq(K, i requires 0 <= i < K => Node(t, ForsLeaf(t, sk, a), a, i, A));
  }

  /** Secrets are drawn under addresses of their own, one for each chain and one for each leaf of each FORS tree. */
  lemma SecretsAt(t: Tweak, sk: Bytes, layer: nat, tree: nat, leaf: nat, i: nat)
    ensures WotsSecret(t, sk, Typed(TreeAddress(layer, tree), WOTS_HASH).(word1 := leaf), i)
         == t(SlhReference.Place(SlhReference.ChainSecret(layer, tree, leaf, i)), sk)
    ensures ForsSecret(t, sk, ForsAddress(tree, leaf), i) == t(SlhReference.Place(SlhReference.FewSecret(tree, leaf, i)), sk)
  {
  }

  // ----- the whole signer

  /** SK.seed, SK.prf, PK.seed. */
  datatype Secret = Secret(seed: Value, prf: Value, pkSeed: Value)

  /** Algorithm 18: the public key three seeds determine. */
  function PublicKey(h: Hashes, sk: Secret): (pk: Bytes)
    ensures |pk| == 2 * N
  {
    sk.pkSeed + XmssNode(h.tweak(sk.pkSeed), sk.seed, 0, H_PRIME, TreeAddress(D - 1, 0))
  }

  /** Algorithm 19, `slh_sign_internal`; `rand` is the hedged variant's randomness, or PK.seed. */
  function Sign(h: Hashes, message: Bytes, sk: Secret, rand: Bytes): (sig: Bytes)
    ensures |sig| == SIGNATURE_BYTES
  {
    SignWith(h, message, sk, h.prfMsg(sk.prf, rand, message))
  }

  /** The signature whose randomizer is `r`. */
  function SignWith(h: Hashes, message: Bytes, sk: Secret, r: Value): (sig: Bytes)
    ensures |sig| == SIGNATURE_BYTES
  {
    var t := h.tweak(sk.pkSeed);
    var (md, tree, leaf) := SplitDigest(h.hmsg(r, sk.pkSeed, PublicKey(h, sk)[N..], message));
    var fors := ForsSign(t, md, sk.seed, ForsAddress(tree, leaf));
    var pk := ForsPk(t, fors, md, ForsAddress(tree, leaf));
    r + fors + HtSign(t, pk, sk.seed, tree, leaf)
  }

  /**
   Completeness: for every choice of hash functions, key, randomness and message,
   the verifier accepts what the signer makes.
   */
  lemma SignedVerifies(h: Hashes, message: Bytes, sk: Secret, rand: Bytes)
    ensures Verify(h, message, Sign(h, message, sk, rand), PublicKey(h, sk)) == Ok(())
  {
    hide SignWith, Verify;
    MadeVerifies(h, message, sk, h.prfMsg(sk.prf, rand, message));
  }

  lemma MadeVerifies(h: Hashes, message: Bytes, sk: Secret, r: Value)
    ensures Verify(h, message, SignWith(h, message, sk, r), PublicKey(h, sk)) == Ok(())
  {
    hide ForsSign, ForsPk, HtSign, HtRoot, XmssNode, ToInt, Pow2;
    var t := h.tweak(sk.pkSeed);
    var pk, sig := PublicKey(h, sk), SignWith(h, message, sk, r);
    assert pk[..N] == sk.pkSeed;
    var (md, tree, leaf) := SplitDigest(h.hmsg(r, sk.pkSeed, pk[N..], message));
    var fors := ForsSign(t, md, sk.seed, ForsAddress(tree, leaf));
    var forsPk := ForsPk(t, fors, md, ForsAddress(tree, leaf));
    assert sig[..N] == r && sig[N..N + FORS_BYTES] == fors;
    assert sig[N + FORS_BYTES..] == HtSign(t, forsPk, sk.seed, tree, leaf);
    HtRecovers(t, forsPk, sk.seed, tree, leaf, D - 1);
    ShiftSmall(tree, 54);
    assert pk[N..] == XmssNode(t, sk.seed, 0, H_PRIME, TreeAddress(D - 1, 0));
  }
}
