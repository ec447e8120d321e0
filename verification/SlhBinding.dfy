/**
 What an accepted signature binds. Whoever reaches an honest root another way than the
 signer has two inputs, one hashed in checking each signature, that the tweakable hash
 maps alike, or has undone a step of a chain the signer stopped at. These lemmas hand
 the evidence over.
 */
module SlhBinding {
  import opened Words
  import opened Digits
  import opened SlhDsa
  import opened SlhSigner

  // ----- what is hashed

  datatype Input = Input(a: Address, x: Bytes)

  ghost function ChainInput(t: Tweak, x: Value, start: nat, a: Address, k: nat): Input {
    Input(a.(word3 := start + k), Chain(t, x, start, k, a))
  }

  /** What a chain hashes. */
  ghost function ChainInputs(t: Tweak, x: Value, start: nat, steps: nat, a: Address): set<Input> {
    set k | 0 <= k < steps :: ChainInput(t, x, start, a, k)
  }

  ghost function ClimbInput(t: Tweak, node: Value, pos: nat, auth: Bytes, a: Address, k: nat): Input
    requires (k + 1) * N <= |auth|
  {
    var below, other := Climb(t, node, pos, auth, k, a), Chunk(auth, k);
    Input(a.(word2 := k + 1, word3 := Shift(pos, k + 1)), if Shift(pos, k) % 2 == 0 then below + other else other + below)
  }

  /** What a climb hashes. */
  ghost function ClimbInputs(t: Tweak, node: Value, pos: nat, auth: Bytes, height: nat, a: Address): set<Input>
    requires height * N <= |auth|
  {
    set k | 0 <= k < height :: ClimbInput(t, node, pos, auth, a, k)
  }

  ghost function WotsChainInputs(t: Tweak, sig: Bytes, message: Value, a: Address, i: nat): set<Input>
    requires |sig| >= LEN * N && i < LEN
  {
    var digit := WotsDigits(message)[i];
    ChainInputs(t, Chunk(sig, i), digit, W - 1 - digit, a.(word2 := i))
  }

  /** What the key a WOTS+ signature implies is made from. */
  ghost function WotsInputs(t: Tweak, sig: Bytes, message: Value, a: Address): set<Input>
    requires |sig| >= LEN * N
  {
    {Input(Typed(a, WOTS_PK).(word1 := a.word1), Flat(WotsEnds(t, sig, message, a)))}
    + (set i, q | 0 <= i < LEN && q in WotsChainInputs(t, sig, message, a, i) :: q)
  }

  ghost function XmssInputs(t: Tweak, idx: nat, sig: Bytes, message: Value, a: Address): set<Input>
    requires |sig| == XMSS_BYTES
  {
    var w := Typed(a, WOTS_HASH).(word1 := idx);
    WotsInputs(t, sig[..LEN * N], message, w)
    + ClimbInputs(t, WotsPk(t, sig[..LEN * N], message, w), idx, sig[LEN * N..], H_PRIME, Typed(a, TREE))
  }

  /** What layer `j` of a hypertree signature signs. */
  ghost function Signed(t: Tweak, message: Value, sig: Bytes, tree: nat, leaf: nat, j: nat): Value
    requires j < D && |sig| == D * XMSS_BYTES
  {
    if j == 0 then message else HtRoot(t, message, sig, tree, leaf, j - 1)
  }

  ghost function LayerInputs(t: Tweak, message: Value, sig: Bytes, tree: nat, leaf: nat, j: nat): set<Input>
    requires j < D && |sig| == D * XMSS_BYTES
  {
    XmssInputs(t, LeafOf(tree, leaf, j), Layer(sig, j), Signed(t, message, sig, tree, leaf, j), TreeAddress(j, TreeOf(tree, j)))
  }

  ghost function HtInputs(t: Tweak, message: Value, sig: Bytes, tree: nat, leaf: nat): set<Input>
    requires |sig| == D * XMSS_BYTES
  {
    set j, q | 0 <= j < D && q in LayerInputs(t, message, sig, tree, leaf, j) :: q
  }

  ghost function ForsRootInputs(t: Tweak, sig: Bytes, md: Bytes, a: Address, i: nat): set<Input>
    requires |sig| == FORS_BYTES && |md| >= 21 && i < K
  {
    var part, pos := ForsSlice(sig, i), ForsPosition(i, Digit(md, A, i));
    var here := a.(word2 := 0, word3 := pos);
    {Input(here, part[..N])} + ClimbInputs(t, t(here, part[..N]), pos, part[N..], A, a)
  }

  ghost function ForsRoots(t: Tweak, sig: Bytes, md: Bytes, a: Address): seq<Value>
    requires |sig| == FORS_BYTES && |md| >= 21
  {
    seq(K, i requires 0 <= i < K => ForsRoot(t, sig, md, a, i))
  }

  ghost function ForsInputs(t: Tweak, sig: Bytes, md: Bytes, a: Address): set<Input>
    requires |sig| == FORS_BYTES && |md| >= 21
  {
    {Input(Typed(a, FORS_ROOTS).(word1 := a.word1), Flat(ForsRoots(t, sig, md, a)))}
    + (set i, q | 0 <= i < K && q in ForsRootInputs(t, sig, md, a, i) :: q)
  }

  /** Everything checking a signature hashes with the tweakable hash. */
  ghost function Hashed(h: Hashes, message: Bytes, sig: Bytes, pk: Bytes): set<Input>
    requires |sig| == SIGNATURE_BYTES && |pk| == 2 * N
  {
    var t := h.tweak(pk[..N]);
    var (md, tree, leaf) := SplitDigest(h.hmsg(sig[..N], pk[..N], pk[N..], message));
    var fors, a := sig[N..N + FORS_BYTES], ForsAddress(tree, leaf);
    ForsInputs(t, fors, md, a) + HtInputs(t, ForsPk(t, fors, md, a), sig[N + FORS_BYTES..], tree, leaf)
  }

  // ----- evidence

  /** Two inputs one address hashes alike, or an input one address hashes to a value given in advance. */
  datatype Break = Collision(a: Address, x: Bytes, y: Bytes) | Preimage(a: Address, x: Bytes)

  /** Different inputs, one of each side's, hashed alike. */
  ghost predicate Collides(t: Tweak, c: Break, mine: set<Input>, theirs: set<Input>) {
    c.Collision? && Input(c.a, c.x) in mine && Input(c.a, c.y) in theirs && c.x != c.y && t(c.a, c.x) == t(c.a, c.y)
  }

  /** An input of theirs that chain `i` hashes to its value in my signature `sig` of `message`. */
  ghost predicate Undoes(t: Tweak, c: Break, sig: Bytes, message: Value, a: Address, i: nat, theirs: set<Input>)
    requires |sig| == LEN * N && i < LEN
  {
    var digit := WotsDigits(message)[i];
    && c.Preimage? && 0 < digit && Input(c.a, c.x) in theirs
    && c.a == a.(word2 := i, word3 := digit - 1) && t(c.a, c.x) == Chunk(sig, i)
  }

  ghost predicate Inverts(t: Tweak, c: Break, sig: Bytes, message: Value, a: Address, theirs: set<Input>)
    requires |sig| == LEN * N
  {
    exists i | 0 <= i < LEN :: Undoes(t, c, sig, message, a, i, theirs)
  }

  ghost predicate InvertsLayer(t: Tweak, c: Break, message: Value, sig: Bytes, tree: nat, leaf: nat, j: nat, theirs: set<Input>)
    requires j < D && |sig| == D * XMSS_BYTES
  {
    Inverts(t, c, Layer(sig, j)[..LEN * N], Signed(t, message, sig, tree, leaf, j),
            TreeAddress(j, TreeOf(tree, j)).(word1 := LeafOf(tree, leaf, j)), theirs)
  }

  /** A collision, or an input of theirs some chain of some layer hashes to its value in my signature. */
  ghost predicate Breaks(t: Tweak, c: Break, message: Value, sig: Bytes, tree: nat, leaf: nat, mine: set<Input>, theirs: set<Input>)
    requires |sig| == D * XMSS_BYTES
  {
    Collides(t, c, mine, theirs) || exists j | 0 <= j < D :: InvertsLayer(t, c, message, sig, tree, leaf, j, theirs)
  }

  // ----- chains and climbs

  /** Chains from different values that end alike collided on the way. */
  lemma {:induction false} ChainBinds(t: Tweak, x: Value, y: Value, start: nat, steps: nat, a: Address) returns (c: Break)
    requires x != y && Chain(t, x, start, steps, a) == Chain(t, y, start, steps, a)
    ensures Collides(t, c, ChainInputs(t, x, start, steps, a), ChainInputs(t, y, start, steps, a))
    decreases steps
  {
    var u, v := Chain(t, x, start, steps - 1, a), Chain(t, y, start, steps - 1, a);
    if u == v {
      c := ChainBinds(t, x, y, start, steps - 1, a);
    } else {
      c := Collision(a.(word3 := start + steps - 1), u, v);
      assert ChainInput(t, x, start, a, steps - 1) == Input(c.a, u) && ChainInput(t, y, start, a, steps - 1) == Input(c.a, v);
    }
  }

  /** What the rest of a chain hashes, the chain hashes. */
  lemma RestOfChain(t: Tweak, x: Value, start: nat, k: nat, steps: nat, a: Address)
    ensures ChainInputs(t, Chain(t, x, start, k, a), start + k, steps, a) <= ChainInputs(t, x, start, k + steps, a)
  {
    var rest, from := Chain(t, x, start, k, a), start + k;
    forall j | 0 <= j < steps
      ensures ChainInput(t, rest, from, a, j) == ChainInput(t, x, start, a, k + j)
    {
      ChainComposes(t, x, start, k, j, a);
    }
  }

  lemma ClimbHashes(t: Tweak, node: Value, pos: nat, auth: Bytes, k: nat, a: Address)
    requires 0 < k && k * N <= |auth|
    ensures var q := ClimbInput(t, node, pos, auth, a, k - 1);
            q in ClimbInputs(t, node, pos, auth, k, a) && Climb(t, node, pos, auth, k, a) == t(q.a, q.x)
    ensures ClimbInputs(t, node, pos, auth, k - 1, a) <= ClimbInputs(t, node, pos, auth, k, a)
  {
    hide Shift, Chunk;
  }

  /** Climbs that differ in their leaf or on their path and reach one root collided on the way. */
  lemma {:induction false} ClimbBinds(t: Tweak, m: Value, n: Value, pos: nat, auth: Bytes, auth': Bytes, k: nat, a: Address)
    returns (c: Break)
    requires k * N <= |auth| && k * N <= |auth'|
    requires m != n || exists j | 0 <= j < k :: Chunk(auth, j) != Chunk(auth', j)
    requires Climb(t, m, pos, auth, k, a) == Climb(t, n, pos, auth', k, a)
    ensures Collides(t, c, ClimbInputs(t, m, pos, auth, k, a), ClimbInputs(t, n, pos, auth', k, a))
    decreases k
  {
    hide Shift, ClimbInputs, Chunk;
    if k == 0 {
      ClimbStart(t, m, pos, auth, a);
      ClimbStart(t, n, pos, auth', a);
    }
    ClimbHashes(t, m, pos, auth, k, a);
    ClimbHashes(t, n, pos, auth', k, a);
    var u: Value, v: Value := Climb(t, m, pos, auth, k - 1, a), Climb(t, n, pos, auth', k - 1, a);
    var p, q := Chunk(auth, k - 1), Chunk(auth', k - 1);
    if u == v && p == q {
      c := ClimbBinds(t, m, n, pos, auth, auth', k - 1, a);
    } else {
      PairsDiffer(u, p, v, q);
      PairsDiffer(p, u, q, v);
      var x, y := ClimbInput(t, m, pos, auth, a, k - 1), ClimbInput(t, n, pos, auth', a, k - 1);
      c := Collision(x.a, x.x, y.x);
    }
  }

  lemma PairsDiffer(a: Value, b: Value, c: Value, d: Value)
    requires a != c || b != d
    ensures a + b != c + d
  {
    assert (a + b)[..N] == a && (a + b)[N..] == b && (c + d)[..N] == c && (c + d)[N..] == d;
  }

  lemma FlatTells(u: seq<Value>, v: seq<Value>)
    requires |u| == |v| && Flat(u) == Flat(v)
    ensures u == v
  {
    forall i | 0 <= i < |u|
      ensures u[i] == v[i]
    {
      ChunkOfFlat(u, [], i);
      ChunkOfFlat(v, [], i);
      assert Flat(u) + [] == Flat(u) && Flat(v) + [] == Flat(v);
    }
  }

  lemma {:induction false} ChunksTell(x: Bytes, y: Bytes, n: nat)
    requires |x| == |y| == n * N && forall i | 0 <= i < n :: Chunk(x, i) == Chunk(y, i)
    ensures x == y
  {
    forall k | 0 <= k < |x|
      ensures x[k] == y[k]
    {
      var i, r := k / N, k % N;
      assert i < n && k == i * N + r;
      assert Chunk(x, i)[r] == Chunk(y, i)[r];
    }
  }

  // ----- WOTS+ and XMSS

  lemma WotsHashes(t: Tweak, sig: Bytes, message: Value, a: Address, i: nat)
    requires |sig| >= LEN * N && i < LEN
    ensures WotsChainInputs(t, sig, message, a, i) <= WotsInputs(t, sig, message, a)
    ensures WotsEnds(t, sig, message, a)[i] == WotsEnd(t, sig, message, a, i)
  {
    hide WotsChainInputs, WotsEnd;
  }

  /** Two WOTS+ signatures of one message that imply one key give a collision. */
  lemma WotsBindsValue(t: Tweak, sig: Bytes, sig': Bytes, message: Value, a: Address) returns (c: Break)
    requires |sig| == |sig'| == LEN * N && sig != sig'
    requires WotsEnds(t, sig, message, a) == WotsEnds(t, sig', message, a)
    ensures Collides(t, c, WotsInputs(t, sig, message, a), WotsInputs(t, sig', message, a))
  {
    hide WotsDigits, Chain, WotsInputs, ChainInputs, WotsEnds;
    if forall i | 0 <= i < LEN :: Chunk(sig, i) == Chunk(sig', i) {
      ChunksTell(sig, sig', LEN);
    }
    var i :| 0 <= i < LEN && Chunk(sig, i) != Chunk(sig', i);
    WotsHashes(t, sig, message, a, i);
    WotsHashes(t, sig', message, a, i);
    var digit := WotsDigits(message)[i];
    c := ChainBinds(t, Chunk(sig, i), Chunk(sig', i), digit, W - 1 - digit, a.(word2 := i));
  }

  /** WOTS+ signatures of two messages that imply one key give a collision, or undo a step of a chain of the first. */
  lemma WotsBindsMessage(t: Tweak, sig: Bytes, sig': Bytes, message: Value, message': Value, a: Address) returns (c: Break)
    requires |sig| == |sig'| == LEN * N && message != message'
    requires WotsEnds(t, sig, message, a) == WotsEnds(t, sig', message', a)
    ensures || Collides(t, c, WotsInputs(t, sig, message, a), WotsInputs(t, sig', message', a))
            || Inverts(t, c, sig, message, a, WotsInputs(t, sig', message', a))
  {
    hide WotsDigits, WotsInputs, ChainInputs, WotsEnds, Chunk;
    Incomparable(message, message');
    var i :| 0 <= i < LEN && WotsDigits(message')[i] < WotsDigits(message)[i];
    WotsHashes(t, sig, message, a, i);
    WotsHashes(t, sig', message', a, i);
    var digit, lower, here := WotsDigits(message)[i], WotsDigits(message')[i], a.(word2 := i);
    ChainComposes(t, Chunk(sig', i), lower, digit - lower, W - 1 - digit, here);
    RestOfChain(t, Chunk(sig', i), lower, digit - lower, W - 1 - digit, here);
    var reached := Chain(t, Chunk(sig', i), lower, digit - lower, here);
    if reached == Chunk(sig, i) {
      c := Preimage(here.(word3 := digit - 1), Chain(t, Chunk(sig', i), lower, digit - lower - 1, here));
      ChainHashes(t, Chunk(sig', i), lower, W - 1 - lower, here, digit - lower - 1);
      assert Undoes(t, c, sig, message, a, i, WotsInputs(t, sig', message', a));
    } else {
      c := ChainBinds(t, Chunk(sig, i), reached, digit, W - 1 - digit, here);
    }
  }

  lemma ChainHashes(t: Tweak, x: Value, start: nat, steps: nat, a: Address, k: nat)
    requires k < steps
    ensures ChainInput(t, x, start, a, k) in ChainInputs(t, x, start, steps, a)
  {
  }

  /** A WOTS+ key binds what is signed and the signature. */
  lemma WotsBinds(t: Tweak, sig: Bytes, sig': Bytes, message: Value, message': Value, a: Address) returns (c: Break)
    requires |sig| == |sig'| == LEN * N && (sig != sig' || message != message')
    requires WotsPk(t, sig, message, a) == WotsPk(t, sig', message', a)
    ensures || Collides(t, c, WotsInputs(t, sig, message, a), WotsInputs(t, sig', message', a))
            || Inverts(t, c, sig, message, a, WotsInputs(t, sig', message', a))
  {
    hide WotsEnds, Inverts, WotsChainInputs;
    var u, v := WotsEnds(t, sig, message, a), WotsEnds(t, sig', message', a);
    if Flat(u) != Flat(v) {
      return Collision(Typed(a, WOTS_PK).(word1 := a.word1), Flat(u), Flat(v));
    }
    FlatTells(u, v);
    if message == message' {
      c := WotsBindsValue(t, sig, sig', message, a);
    } else {
      c := WotsBindsMessage(t, sig, sig', message, message', a);
    }
  }

  lemma Widens(t: Tweak, c: Break, mine: set<Input>, theirs: set<Input>, mine': set<Input>, theirs': set<Input>)
    requires mine <= mine' && theirs <= theirs'
    ensures Collides(t, c, mine, theirs) ==> Collides(t, c, mine', theirs')
    ensures forall sig, message, a | |sig| == LEN * N && Inverts(t, c, sig, message, a, theirs) :: Inverts(t, c, sig, message, a, theirs')
  {
    forall sig, message, a | |sig| == LEN * N && Inverts(t, c, sig, message, a, theirs)
      ensures Inverts(t, c, sig, message, a, theirs')
    {
      hide WotsDigits, Chunk;
      var i :| 0 <= i < LEN && Undoes(t, c, sig, message, a, i, theirs);
      assert Undoes(t, c, sig, message, a, i, theirs');
    }
  }

  /** An XMSS root binds what a leaf signs and the signature. */
  lemma XmssBinds(t: Tweak, idx: nat, sig: Bytes, sig': Bytes, message: Value, message': Value, a: Address) returns (c: Break)
    requires |sig| == |sig'| == XMSS_BYTES && (sig != sig' || message != message')
    requires XmssPk(t, idx, sig, message, a) == XmssPk(t, idx, sig', message', a)
    ensures || Collides(t, c, XmssInputs(t, idx, sig, message, a), XmssInputs(t, idx, sig', message', a))
            || Inverts(t, c, sig[..LEN * N], message, Typed(a, WOTS_HASH).(word1 := idx), XmssInputs(t, idx, sig', message', a))
  {
    hide WotsPk, Climb, Inverts, Collides, WotsInputs, ClimbInputs;
    var cut := LEN * N;
    var w := Typed(a, WOTS_HASH).(word1 := idx);
    var mine, theirs := XmssInputs(t, idx, sig, message, a), XmssInputs(t, idx, sig', message', a);
    assert sig == sig[..cut] + sig[cut..] && sig' == sig'[..cut] + sig'[cut..];
    var m, n := WotsPk(t, sig[..cut], message, w), WotsPk(t, sig'[..cut], message', w);
    if m == n && (sig[..cut] != sig'[..cut] || message != message') {
      c := WotsBinds(t, sig[..cut], sig'[..cut], message, message', w);
      Widens(t, c, WotsInputs(t, sig[..cut], message, w), WotsInputs(t, sig'[..cut], message', w), mine, theirs);
    } else {
      if m == n && forall j | 0 <= j < H_PRIME :: Chunk(sig[cut..], j) == Chunk(sig'[cut..], j) {
        ChunksTell(sig[cut..], sig'[cut..], H_PRIME);
      }
      c := ClimbBinds(t, m, n, idx, sig[cut..], sig'[cut..], H_PRIME, Typed(a, TREE));
      Widens(t, c, ClimbInputs(t, m, idx, sig[cut..], H_PRIME, Typed(a, TREE)),
             ClimbInputs(t, n, idx, sig'[cut..], H_PRIME, Typed(a, TREE)), mine, theirs);
    }
  }

  // ----- the hypertree

  lemma HtHashes(t: Tweak, message: Value, sig: Bytes, tree: nat, leaf: nat, j: nat)
    requires j < D && |sig| == D * XMSS_BYTES
    ensures LayerInputs(t, message, sig, tree, leaf, j) <= HtInputs(t, message, sig, tree, leaf)
  {
    hide LayerInputs;
  }

  /** A root of the hypertree binds the message and every signature on the way to it. */
  lemma {:induction false} HtBinds(t: Tweak, message: Value, message': Value, sig: Bytes, sig': Bytes,
                                   tree: nat, leaf: nat, j: nat) returns (c: Break)
    requires j < D && |sig| == |sig'| == D * XMSS_BYTES
    requires message != message' || exists k | 0 <= k <= j :: Layer(sig, k) != Layer(sig', k)
    requires HtRoot(t, message, sig, tree, leaf, j) == HtRoot(t, message', sig', tree, leaf, j)
    ensures Breaks(t, c, message, sig, tree, leaf, HtInputs(t, message, sig, tree, leaf), HtInputs(t, message', sig', tree, leaf))
    decreases j
  {
    hide XmssPk, Inverts, Layer, TreeOf, LeafOf, Collides, HtInputs, XmssInputs;
    var m, n := Signed(t, message, sig, tree, leaf, j), Signed(t, message', sig', tree, leaf, j);
    if m == n && Layer(sig, j) == Layer(sig', j) {
      c := HtBinds(t, message, message', sig, sig', tree, leaf, j - 1);
    } else {
      c := XmssBinds(t, LeafOf(tree, leaf, j), Layer(sig, j), Layer(sig', j), m, n, TreeAddress(j, TreeOf(tree, j)));
      var theirs := HtInputs(t, message', sig', tree, leaf);
      HtHashes(t, message, sig, tree, leaf, j);
      HtHashes(t, message', sig', tree, leaf, j);
      Widens(t, c, LayerInputs(t, message, sig, tree, leaf, j), LayerInputs(t, message', sig', tree, leaf, j),
             HtInputs(t, message, sig, tree, leaf), theirs);
      assert Collides(t, c, HtInputs(t, message, sig, tree, leaf), theirs) || InvertsLayer(t, c, message, sig, tree, leaf, j, theirs);
    }
  }

  lemma LayersTell(sig: Bytes, sig': Bytes)
    requires |sig| == |sig'| == D * XMSS_BYTES && forall j | 0 <= j < D :: Layer(sig, j) == Layer(sig', j)
    ensures sig == sig'
  {
    forall k | 0 <= k < |sig|
      ensures sig[k] == sig'[k]
    {
      var j, r := k / XMSS_BYTES, k % XMSS_BYTES;
      assert j < D && k == j * XMSS_BYTES + r;
      assert Layer(sig, j)[r] == Layer(sig', j)[r];
    }
  }

  // ----- FORS

  /** A FORS root binds the secret and the path of its tree. */
  lemma ForsRootBinds(t: Tweak, sig: Bytes, sig': Bytes, md: Bytes, a: Address, i: nat) returns (c: Break)
    requires |sig| == |sig'| == FORS_BYTES && |md| >= 21 && i < K
    requires ForsSlice(sig, i) != ForsSlice(sig', i) && ForsRoot(t, sig, md, a, i) == ForsRoot(t, sig', md, a, i)
    ensures Collides(t, c, ForsRootInputs(t, sig, md, a, i), ForsRootInputs(t, sig', md, a, i))
  {
    hide Climb, Digit, ClimbInputs;
    var x, y := ForsSlice(sig, i), ForsSlice(sig', i);
    assert x == x[..N] + x[N..] && y == y[..N] + y[N..];
    var pos := ForsPosition(i, Digit(md, A, i));
    var here := a.(word2 := 0, word3 := pos);
    var m, n := t(here, x[..N]), t(here, y[..N]);
    if m == n && x[..N] != y[..N] {
      return Collision(here, x[..N], y[..N]);
    }
    if m == n && forall j | 0 <= j < A :: Chunk(x[N..], j) == Chunk(y[N..], j) {
      ChunksTell(x[N..], y[N..], A);
    }
    c := ClimbBinds(t, m, n, pos, x[N..], y[N..], A, a);
  }

  lemma SlicesTell(sig: Bytes, sig': Bytes)
    requires |sig| == |sig'| == FORS_BYTES && forall i | 0 <= i < K :: ForsSlice(sig, i) == ForsSlice(sig', i)
    ensures sig == sig'
  {
    forall k | 0 <= k < |sig|
      ensures sig[k] == sig'[k]
    {
      var width := (A + 1) * N;
      var i, r := k / width, k % width;
      assert i < K && k == i * width + r;
      assert ForsSlice(sig, i)[r] == ForsSlice(sig', i)[r];
    }
  }

  /** A FORS key binds the signature of each digest. */
  lemma ForsBinds(t: Tweak, sig: Bytes, sig': Bytes, md: Bytes, a: Address) returns (c: Break)
    requires |sig| == |sig'| == FORS_BYTES && |md| >= 21 && sig != sig'
    requires ForsPk(t, sig, md, a) == ForsPk(t, sig', md, a)
    ensures Collides(t, c, ForsInputs(t, sig, md, a), ForsInputs(t, sig', md, a))
  {
    hide ForsRoot, ForsSlice, ForsRootInputs;
    var u, v := ForsRoots(t, sig, md, a), ForsRoots(t, sig', md, a);
    if Flat(u) != Flat(v) {
      return Collision(Typed(a, FORS_ROOTS).(word1 := a.word1), Flat(u), Flat(v));
    }
    FlatTells(u, v);
    if forall i | 0 <= i < K :: ForsSlice(sig, i) == ForsSlice(sig', i) {
      SlicesTell(sig, sig');
    }
    var i :| 0 <= i < K && ForsSlice(sig, i) != ForsSlice(sig', i);
    assert u[i] == v[i];
    c := ForsRootBinds(t, sig, sig', md, a, i);
  }

  // ----- the whole scheme

  /** A hypertree signature under the signer's root is the signer's own, over the same value. */
  lemma HonestRoot(t: Tweak, sk: Bytes, key: Value, pk: Value, sig: Bytes, tree: nat, leaf: nat) returns (c: Break)
    requires |sig| == D * XMSS_BYTES && leaf < 512
    requires HtRoot(t, pk, sig, tree, leaf, D - 1) == LayerRoot(t, sk, tree, D - 1)
    requires pk != key || sig != HtSign(t, key, sk, tree, leaf)
    ensures var made := HtSign(t, key, sk, tree, leaf);
            Breaks(t, c, key, made, tree, leaf, HtInputs(t, key, made, tree, leaf), HtInputs(t, pk, sig, tree, leaf))
  {
    hide HtSign, HtRoot, LayerRoot, Breaks, Layer, HtInputs;
    var made := HtSign(t, key, sk, tree, leaf);
    HtRecovers(t, key, sk, tree, leaf, D - 1);
    if forall j | 0 <= j < D :: Layer(made, j) == Layer(sig, j) {
      LayersTell(made, sig);
    }
    c := HtBinds(t, key, pk, made, sig, tree, leaf, D - 1);
  }

  lemma BreaksWiden(t: Tweak, c: Break, message: Value, sig: Bytes, tree: nat, leaf: nat,
                    mine: set<Input>, theirs: set<Input>, mine': set<Input>, theirs': set<Input>)
    requires |sig| == D * XMSS_BYTES && mine <= mine' && theirs <= theirs'
    ensures Breaks(t, c, message, sig, tree, leaf, mine, theirs) ==> Breaks(t, c, message, sig, tree, leaf, mine', theirs')
    ensures Collides(t, c, mine', theirs') ==> Breaks(t, c, message, sig, tree, leaf, mine', theirs')
  {
    hide Inverts, Layer, Signed, TreeOf, LeafOf;
    Widens(t, c, mine, theirs, mine', theirs');
    if !Collides(t, c, mine, theirs) && Breaks(t, c, message, sig, tree, leaf, mine, theirs) {
      var j :| 0 <= j < D && InvertsLayer(t, c, message, sig, tree, leaf, j, theirs);
      assert InvertsLayer(t, c, message, sig, tree, leaf, j, theirs');
    }
  }

  ghost function TreePart(sig: Bytes): (part: Bytes)
    requires |sig| == SIGNATURE_BYTES
    ensures |part| == D * XMSS_BYTES
  {
    sig[N + FORS_BYTES..]
  }

  /** Evidence, among what checking `sig` and what the signer makes with the same randomizer hashes, against the latter. */
  ghost predicate Forges(h: Hashes, c: Break, message: Bytes, sig: Bytes, sk: Secret)
    requires |sig| == SIGNATURE_BYTES
  {
    var t, pk, made := h.tweak(sk.pkSeed), PublicKey(h, sk), SignWith(h, message, sk, sig[..N]);
    var (md, tree, leaf) := SplitDigest(h.hmsg(sig[..N], sk.pkSeed, pk[N..], message));
    Breaks(t, c, ForsKey(t, sk.seed, ForsAddress(tree, leaf)), TreePart(made), tree, leaf,
           Hashed(h, message, made, pk), Hashed(h, message, sig, pk))
  }

  /**
   Under the signer's key the verifier accepts nothing the signer would not make for the
   same message and randomizer, unless checking the two hashes different inputs alike, or
   hashes something to a chain value the signer stopped at.
   */
  lemma AcceptedIsMade(h: Hashes, message: Bytes, sig: Bytes, sk: Secret) returns (c: Break)
    requires |sig| == SIGNATURE_BYTES && sig != SignWith(h, message, sk, sig[..N])
    requires Verify(h, message, sig, PublicKey(h, sk)) == Ok(())
    ensures Forges(h, c, message, sig, sk)
  {
    hide ForsSign, ForsPk, ForsKey, HtSign, HtRoot, XmssNode, ToInt, Pow2, Breaks, ForsInputs, HtInputs;
    var t := h.tweak(sk.pkSeed);
    var pk := PublicKey(h, sk);
    assert pk[..N] == sk.pkSeed;
    var (md, tree, leaf) := SplitDigest(h.hmsg(sig[..N], sk.pkSeed, pk[N..], message));
    var a := ForsAddress(tree, leaf);
    var fors, rest := sig[N..N + FORS_BYTES], sig[N + FORS_BYTES..];
    assert sig == sig[..N] + fors + rest;
    var key, made := ForsPk(t, fors, md, a), ForsSign(t, md, sk.seed, a);
    ForsRecovers(t, md, sk.seed, a);
    ShiftSmall(tree, 54);
    assert pk[N..] == LayerRoot(t, sk.seed, tree, D - 1);
    var honest := SignWith(h, message, sk, sig[..N]);
    assert honest[..N] == sig[..N] && honest[N..N + FORS_BYTES] == made;
    assert honest[N + FORS_BYTES..] == HtSign(t, ForsKey(t, sk.seed, a), sk.seed, tree, leaf);
    if key == ForsKey(t, sk.seed, a) && fors != made {
      c := ForsBinds(t, made, fors, md, a);
    } else {
      c := HonestRoot(t, sk.seed, ForsKey(t, sk.seed, a), key, rest, tree, leaf);
    }
    BreaksWiden(t, c, ForsKey(t, sk.seed, a), honest[N + FORS_BYTES..], tree, leaf,
                HtInputs(t, ForsKey(t, sk.seed, a), honest[N + FORS_BYTES..], tree, leaf), HtInputs(t, key, rest, tree, leaf),
                Hashed(h, message, honest, pk), Hashed(h, message, sig, pk));
  }
}
