/** The verifier as it runs: one address mutated in place, buffers filled in loops. */
module SlhVerifier {
  import opened Words
  import opened Digits
  import opened SlhDsa
  import SlhReference

  class Adrs {
    var at: Address

    constructor ()
      ensures at == Address(0, 0, 0, 0, 0, 0)
    {
      at := Address(0, 0, 0, 0, 0, 0);
    }

    constructor Copy(other: Adrs)
      ensures at == other.at
    {
      at := other.at;
    }

    method SetTypeAndClear(kind: nat)
      modifies this
      ensures at == Typed(old(at), kind)
    {
      at := at.(kind := kind, word1 := 0, word2 := 0, word3 := 0);
    }
  }

  /** Algorithm 5: only the word it counts in is left changed. */
  method ChainSteps(t: Tweak, x: Value, start: nat, steps: nat, adrs: Adrs) returns (tmp: Value)
    modifies adrs
    ensures tmp == Chain(t, x, start, steps, old(adrs.at))
    ensures adrs.at == old(adrs.at).(word3 := adrs.at.word3)
  {
    tmp := x;
    for j := start to start + steps
      invariant tmp == Chain(t, x, start, j - start, old(adrs.at))
      invariant adrs.at == old(adrs.at).(word3 := adrs.at.word3)
    {
      adrs.at := adrs.at.(word3 := j);
      tmp := t(adrs.at, tmp);
    }
  }

  /** Lines 1 to 7 of Algorithms 7 and 8. */
  method DigitsOf(message: Value) returns (digits: seq<nat>)
    ensures digits == WotsDigits(message)
  {
    hide Digit;
    var msg := Base2b(message, LG_W, LEN1);
    assert msg == MessageDigits(message);
    MessageDigitsSmall(message);
    var csum := 0;
    for i := 0 to LEN1
      invariant csum == Shortfall(msg[..i])
    {
      ShortfallGrows(msg, i);
      csum := csum + (W - 1 - msg[i]);
    }
    assert msg[..LEN1] == msg;
    var checksum := ChecksumDigits(csum);
    digits := msg + checksum;
  }

  /** The checksum, shifted to the top of two bytes and cut into three digits. */
  method ChecksumDigits(csum: nat) returns (digits: seq<nat>)
    requires csum < 4096
    ensures digits == [csum / 256, (csum / 16) % 16, csum % 16]
  {
    hide Digit;
    var shifted := csum * 16;
    var bytes := [shifted / 256, shifted % 256];
    digits := Base2b(bytes, LG_W, LEN2);
    NibbleOf(bytes, 0);
    NibbleOf(bytes, 1);
    NibbleOf(bytes, 2);
  }

  lemma ShortfallGrows(ds: seq<nat>, i: nat)
    requires i < |ds|
    ensures Shortfall(ds[..i + 1]) == Shortfall(ds[..i]) + (W - 1 - ds[i])
  {
    assert ds[..i + 1][..i] == ds[..i];
  }

  /** Algorithm 8; what chains leave in the address changes no later hash. */
  method WotsPkFromSig(t: Tweak, sig: Bytes, message: Value, adrs: Adrs) returns (pk: Value)
    requires |sig| >= LEN * N
    modifies adrs
    ensures pk == WotsPk(t, sig, message, old(adrs.at))
    ensures adrs.at == old(adrs.at).(word2 := adrs.at.word2, word3 := adrs.at.word3)
  {
    hide WotsDigits, Chain;
    ghost var a := adrs.at;
    var digits := DigitsOf(message);
    var ends: seq<Value> := [];
    for i := 0 to LEN
      invariant |ends| == i && forall k | 0 <= k < i :: ends[k] == WotsEnd(t, sig, message, a, k)
      invariant adrs.at == a.(word2 := adrs.at.word2, word3 := adrs.at.word3)
    {
      adrs.at := adrs.at.(word2 := i);
      ChainIgnoresLeftover(t, Chunk(sig, i), digits[i], W - 1 - digits[i], a.(word2 := i), adrs.at.word3);
      var end := ChainSteps(t, Chunk(sig, i), digits[i], W - 1 - digits[i], adrs);
      ends := ends + [end];
    }
    assert ends == WotsEnds(t, sig, message, a);
    var pkAdrs := new Adrs.Copy(adrs);
    pkAdrs.SetTypeAndClear(WOTS_PK);
    pkAdrs.at := pkAdrs.at.(word1 := adrs.at.word1);
    pk := t(pkAdrs.at, Flat(ends));
  }

  /** The low `height` bits of `pos` turn the same way as those of `index`. */
  ghost predicate SameTurns(pos: nat, index: nat, height: nat) {
    forall k | 0 <= k < height :: Shift(pos, k) % 2 == Shift(index, k) % 2
  }

  /** Climbs from the tree index in the address; the index never drops below zero on the way. */
  method ClimbPath(t: Tweak, leaf: Value, index: nat, auth: Bytes, height: nat, adrs: Adrs) returns (node: Value)
    requires height * N <= |auth| && SameTurns(adrs.at.word3, index, height)
    modifies adrs
    ensures node == Climb(t, leaf, old(adrs.at.word3), auth, height, old(adrs.at))
    ensures adrs.at == old(adrs.at).(word2 := adrs.at.word2, word3 := Shift(old(adrs.at.word3), height))
  {
    hide Climb, Shift, Chunk;
    ghost var a, pos := adrs.at, adrs.at.word3;
    node := leaf;
    ClimbStart(t, leaf, pos, auth, a);
    for k := 0 to height
      invariant node == Climb(t, leaf, pos, auth, k, a)
      invariant adrs.at == a.(word2 := adrs.at.word2, word3 := Shift(pos, k))
    {
      ClimbStep(t, leaf, pos, auth, k + 1, a);
      adrs.at := adrs.at.(word2 := k + 1);
      var sibling := Chunk(auth, k);
      assert Shift(pos, k) % 2 == Shift(index, k) % 2;
      if Shift(index, k) % 2 == 0 {
        adrs.at := adrs.at.(word3 := adrs.at.word3 / 2);
        node := t(adrs.at, node + sibling);
      } else {
        adrs.at := adrs.at.(word3 := (adrs.at.word3 - 1) / 2);
        node := t(adrs.at, sibling + node);
      }
    }
  }

  /** Algorithm 11: the result depends on the address only through its layer and tree. */
  method XmssPkFromSig(t: Tweak, idx: nat, sig: Bytes, message: Value, adrs: Adrs) returns (root: Value)
    requires |sig| == XMSS_BYTES
    modifies adrs
    ensures root == XmssPk(t, idx, sig, message, TreeAddress(old(adrs.at.layer), old(adrs.at.tree)))
    ensures adrs.at.layer == old(adrs.at.layer) && adrs.at.tree == old(adrs.at.tree)
  {
    hide WotsPk, Climb, Shift;
    adrs.SetTypeAndClear(WOTS_HASH);
    adrs.at := adrs.at.(word1 := idx);
    var node := WotsPkFromSig(t, sig[..LEN * N], message, adrs);
    adrs.SetTypeAndClear(TREE);
    ClimbIgnoresLeftover(t, node, idx, sig[LEN * N..], H_PRIME, adrs.at, adrs.at.word2, idx);
    adrs.at := adrs.at.(word3 := idx);
    root := ClimbPath(t, node, idx, sig[LEN * N..], H_PRIME, adrs);
  }

  /** A climb does not depend on what its two words held before. */
  lemma {:induction false} ClimbIgnoresLeftover(t: Tweak, node: Value, pos: nat, auth: Bytes, k: nat, a: Address, left2: nat, left3: nat)
    requires k * N <= |auth|
    ensures Climb(t, node, pos, auth, k, a.(word2 := left2, word3 := left3)) == Climb(t, node, pos, auth, k, a)
  {
    if k > 0 {
      ClimbIgnoresLeftover(t, node, pos, auth, k - 1, a, left2, left3);
    }
  }

  /** Algorithm 13. */
  method HtVerify(t: Tweak, message: Value, sig: Bytes, tree0: nat, leaf0: nat, root: Bytes) returns (accepted: bool)
    requires |sig| == D * XMSS_BYTES
    ensures accepted == (HtRoot(t, message, sig, tree0, leaf0, D - 1) == root)
  {
    hide XmssPk, Shift;
    var adrs := new Adrs();
    adrs.at := adrs.at.(tree := tree0);
    assert TreeOf(tree0, 0) == tree0 by { ShiftNone(tree0); }
    var node := XmssPkFromSig(t, leaf0, Layer(sig, 0), message, adrs);
    var tree := tree0;
    for j := 1 to D
      invariant node == HtRoot(t, message, sig, tree0, leaf0, j - 1) && tree == TreeOf(tree0, j - 1)
    {
      var leaf := tree % 512;
      ShiftAdds(tree0, H_PRIME * (j - 1), H_PRIME);
      tree := Shift(tree, H_PRIME);
      adrs.at := adrs.at.(layer := j, tree := tree);
      node := XmssPkFromSig(t, leaf, Layer(sig, j), node, adrs);
    }
    accepted := node == root;
  }

  lemma ShiftNone(n: nat)
    ensures Shift(n, 0) == n
  {
  }

  /** Algorithm 17: every tree starts from the same address, whatever the one before left in it. */
  method ForsPkFromSig(t: Tweak, sig: Bytes, md: Bytes, adrs: Adrs) returns (pk: Value)
    requires |sig| == FORS_BYTES && |md| >= 21
    modifies adrs
    ensures pk == ForsPk(t, sig, md, old(adrs.at))
  {
    hide Climb, Digit, Shift;
    ghost var a := adrs.at;
    var indices := Base2b(md, A, K);
    var roots: seq<Value> := [];
    for i := 0 to K
      invariant |roots| == i && forall k | 0 <= k < i :: roots[k] == ForsRoot(t, sig, md, a, k)
      invariant adrs.at == a.(word2 := adrs.at.word2, word3 := adrs.at.word3)
    {
      var part := ForsSlice(sig, i);
      var pos := i * 4096 + indices[i];
      adrs.at := adrs.at.(word2 := 0, word3 := pos);
      var leaf := t(adrs.at, part[..N]);
      ForsTurns(i, indices[i]);
      ClimbIgnoresLeftover(t, leaf, pos, part[N..], A, a, 0, pos);
      var root := ClimbPath(t, leaf, indices[i], part[N..], A, adrs);
      roots := roots + [root];
    }
    assert roots == seq(K, i requires 0 <= i < K => ForsRoot(t, sig, md, a, i));
    var pkAdrs := new Adrs.Copy(adrs);
    pkAdrs.SetTypeAndClear(FORS_ROOTS);
    pkAdrs.at := pkAdrs.at.(word1 := adrs.at.word1);
    pk := t(pkAdrs.at, Flat(roots));
  }

  /** A number above at least one bit changes no lowest bit. */
  lemma EvenAbove(c: nat, k: nat, x: nat)
    requires k > 0
    ensures (c * Pow2(k) + x) % 2 == x % 2
  {
    assert Pow2(k) == 2 * Pow2(k - 1);
    hide Pow2;
    var m := c * Pow2(k - 1);
    assert c * (2 * Pow2(k - 1)) == 2 * m;
  }

  lemma ForsTurns(i: nat, index: nat)
    ensures SameTurns(i * 4096 + index, index, A)
  {
    hide Shift;
    Pow2Small();
    forall k | 0 <= k < A
      ensures Shift(i * 4096 + index, k) % 2 == Shift(index, k) % 2
    {
      ShiftUnder(i, A, index, k);
      EvenAbove(i, A - k, Shift(index, k));
    }
  }

  lemma ConcatThree(a: Bytes, b: Bytes, c: Bytes)
    ensures Concat([a, b, c]) == a + b + c
  {
    var parts := [a, b, c];
    assert parts[..2] == [a, b] && [a, b][..1] == [a] && [a][..0] == [];
    assert Concat([a]) == Concat([]) + a == a;
    assert Concat([a, b]) == a + b;
  }

  /** Algorithm 20, over a message given in parts. */
  method VerifyInternal(h: Hashes, message: seq<Bytes>, signature: Bytes, publicKey: Bytes) returns (r: Result<(), Refusal>)
    requires |publicKey| == 2 * N
    ensures r == Verify(h, Concat(message), signature, publicKey) == SlhReference.Reference(h, Concat(message), signature, publicKey)
  {
    hide ForsPk, HtRoot, ToInt, Pow2, SlhReference.Reference;
    SlhReference.VerifyIsReference(h, Concat(message), signature, publicKey);
    if |signature| != SIGNATURE_BYTES {
      return Err(WrongLength);
    }
    var seed, root := publicKey[..N], publicKey[N..];
    var t := h.tweak(seed);
    var digest := h.hmsg(signature[..N], seed, root, Concat(message));
    var (md, tree, leaf) := SplitDigest(digest);
    var adrs := new Adrs();
    adrs.at := adrs.at.(tree := tree);
    adrs.SetTypeAndClear(FORS_TREE);
    adrs.at := adrs.at.(word1 := leaf);
    var pk := ForsPkFromSig(t, signature[N..N + FORS_BYTES], md, adrs);
    var accepted := HtVerify(t, pk, signature[N + FORS_BYTES..], tree, leaf, root);
    return if accepted then Ok(()) else Err(Mismatch);
  }

  /** Algorithm 24, `slh_verify`: a context of at most 255 bytes, bound to the message. */
  method VerifyPure(h: Hashes, message: Bytes, signature: Bytes, context: Bytes, publicKey: Bytes)
    returns (r: Result<(), Refusal>)
    requires |publicKey| == 2 * N
    ensures r == if |context| > 255 then Err(ContextTooLong)
                 else Verify(h, [0, |context|] + context + message, signature, publicKey)
  {
    hide Verify;
    if |context| > 255 {
      return Err(ContextTooLong);
    }
    var parts: seq<Bytes> := [[0, |context|], context, message];
    ConcatThree([0, |context|], context, message);
    r := VerifyInternal(h, parts, signature, publicKey);
  }
}
