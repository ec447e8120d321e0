/** Which blocks are in use: one bit per block, block zero first. */
module Bitmaps {
  import opened Words
  import opened Blocks
  import opened Superblocks
  import opened Digits

  /** Bit `k` of a number, lowest first. */
  predicate Bit(n: nat, k: nat) {
    if k == 0 then n % 2 == 1 else Bit(n / 2, k - 1)
  }

  /** The number with bit `k` made `on`. */
  function WithBit(n: nat, k: nat, on: bool): nat {
    if k == 0 then n / 2 * 2 + (if on then 1 else 0) else WithBit(n / 2, k - 1, on) * 2 + n % 2
  }

  /** Changing one bit changes that bit and no other. */
  lemma {:induction false} BitSet(n: nat, k: nat, on: bool, j: nat)
    ensures Bit(WithBit(n, k, on), j) == if j == k then on else Bit(n, j)
    decreases k
  {
    if k > 0 && j > 0 {
      BitSet(n / 2, k - 1, on, j - 1);
    }
  }

  /** A bit inside a number's width leaves it inside. */
  lemma {:induction false} BitFits(n: nat, k: nat, on: bool, width: nat)
    requires k < width && n < Pow2(width)
    ensures WithBit(n, k, on) < Pow2(width)
    decreases k
  {
    if k > 0 {
      BitFits(n / 2, k - 1, on, width - 1);
    }
  }

  /** Whether `block` is in use. Past the end of the map it reads as free. */
  predicate UsedIn(bits: Bytes, block: nat) {
    block / 8 < |bits| && Bit(bits[block / 8], block % 8)
  }

  function SetIn(bits: Bytes, block: nat, on: bool): (r: Bytes)
    ensures |r| == |bits|
  {
    if block / 8 < |bits| then
      Pow2Small();
      BitFits(bits[block / 8], block % 8, on, 8);
      bits[block / 8 := WithBit(bits[block / 8], block % 8, on)]
    else bits
  }

  /** Setting one block's bit changes that block and no other. */
  lemma SetIs(bits: Bytes, block: nat, on: bool, other: nat)
    requires block / 8 < |bits|
    ensures UsedIn(SetIn(bits, block, on), other) == if other == block then on else UsedIn(bits, other)
  {
    hide Bit, WithBit;
    BitSet(bits[block / 8], block % 8, on, other % 8);
  }

  /** The lowest block in `[first, blocks)` nobody holds. */
  function Lowest(held: set<nat>, first: nat, blocks: nat): (r: Option<nat>)
    ensures r.Some? ==> first <= r.value < blocks && r.value !in held && forall b | first <= b < r.value :: b in held
    ensures r.None? ==> forall b | first <= b < blocks :: b in held
    decreases blocks - first
  {
    if first >= blocks then None else if first !in held then Some(first) else Lowest(held, first + 1, blocks)
  }

  /** The map of a filesystem of `blocks` blocks whose first data block is `firstData`. */
  class Bitmap {
    var bytes: Bytes
    const blocks: nat
    const firstData: nat

    ghost predicate Valid()
      reads this
    {
      blocks <= 8 * |bytes|
    }

    /** The data blocks somebody owns. */
    ghost function Held(): set<nat>
      reads this
    {
      set b: nat | firstData <= b < blocks && UsedIn(bytes, b)
    }

    constructor (bytes: Bytes, blocks: nat, firstData: nat)
      requires blocks <= 8 * |bytes|
      ensures Valid() && this.bytes == bytes && this.blocks == blocks && this.firstData == firstData
    {
      this.bytes, this.blocks, this.firstData := bytes, blocks, firstData;
    }

    /** Finds the map inside an image; refuses one that is not all there, or too short to describe every block. */
    static method Of(image: Bytes, sb: Superblock) returns (r: Result<Bitmap, FsError>)
      requires sb.bitmapStart <= sb.inodeStart
      ensures r.Ok? <==> sb.inodeStart * BLOCK <= |image| && sb.blocks <= 8 * ((sb.inodeStart - sb.bitmapStart) * BLOCK)
      ensures r.Ok? ==> fresh(r.value) && r.value.Valid() && r.value.blocks == sb.blocks && r.value.firstData == sb.dataStart
                        && r.value.bytes == image[sb.bitmapStart * BLOCK..sb.inodeStart * BLOCK]
      ensures r.Err? ==> r.error == OutOfRange
    {
      var length := (sb.inodeStart - sb.bitmapStart) * BLOCK;
      if length * 8 < sb.blocks || sb.inodeStart * BLOCK > |image| {
        return Err(OutOfRange);
      }
      var bitmap := new Bitmap(image[sb.bitmapStart * BLOCK..sb.inodeStart * BLOCK], sb.blocks, sb.dataStart);
      return Ok(bitmap);
    }

    method Set(block: nat, used: bool)
      modifies this
      ensures bytes == SetIn(old(bytes), block, used)
    {
      bytes := SetIn(bytes, block, used);
    }

    /** The block `Allocate` would take, without taking it, if a 32-bit number can name it. */
    method FirstFree() returns (r: Option<nat>)
      requires Valid()
      ensures var lowest := Lowest(Held(), firstData, blocks);
              r == if lowest.Some? && lowest.value < U32 then lowest else None
    {
      hide UsedIn;
      var block := firstData;
      while block < blocks
        invariant firstData <= block
        invariant Lowest(Held(), firstData, blocks) == Lowest(Held(), block, blocks)
      {
        if !UsedIn(bytes, block) {
          return if block < U32 then Some(block) else None;
        }
        block := block + 1;
      }
      return None;
    }

    /** Takes the lowest free data block. */
    method Allocate() returns (r: Result<nat, FsError>)
      requires Valid()
      modifies this
      ensures Valid() && |bytes| == |old(bytes)|
      ensures var lowest := Lowest(old(Held()), firstData, blocks);
              r == if lowest.Some? then Ok(lowest.value) else Err(Full)
      ensures r.Ok? ==> Held() == old(Held()) + {r.value}
      ensures r.Ok? ==> forall b: nat | b != r.value :: UsedIn(bytes, b) == UsedIn(old(bytes), b)
      ensures r.Err? ==> bytes == old(bytes)
    {
      hide UsedIn;
      var block := firstData;
      while block < blocks
        invariant firstData <= block && bytes == old(bytes)
        invariant Lowest(Held(), firstData, blocks) == Lowest(Held(), block, blocks)
      {
        if !UsedIn(bytes, block) {
          Set(block, true);
          SetAll(old(bytes), block, true);
          return Ok(block);
        }
        block := block + 1;
      }
      return Err(Full);
    }

    /** Gives a data block back; metadata cannot be given back. */
    method Free(block: nat) returns (r: Result<(), FsError>)
      requires Valid()
      modifies this
      ensures Valid() && |bytes| == |old(bytes)|
      ensures r.Ok? <==> firstData <= block < blocks
      ensures r.Ok? ==> Held() == old(Held()) - {block}
      ensures r.Ok? ==> forall b: nat | b != block :: UsedIn(bytes, b) == UsedIn(old(bytes), b)
      ensures r.Err? ==> r == Err(OutOfRange) && bytes == old(bytes)
    {
      if block < firstData || block >= blocks {
        return Err(OutOfRange);
      }
      Set(block, false);
      SetAll(old(bytes), block, false);
      return Ok(());
    }

    /** How many data blocks are in use. */
    method InUse() returns (n: nat)
      requires Valid()
      ensures n == |Held()|
    {
      n := 0;
      ghost var counted: set<nat> := {};
      var block := firstData;
      while block < blocks
        invariant firstData <= block && n == |counted|
        invariant counted == set b: nat | firstData <= b < block && b < blocks && UsedIn(bytes, b)
      {
        if UsedIn(bytes, block) {
          counted := counted + {block};
          n := n + 1;
        }
        block := block + 1;
      }
      assert counted == Held();
    }
  }

  lemma SetAll(bits: Bytes, block: nat, on: bool)
    requires block / 8 < |bits|
    ensures forall other: nat :: UsedIn(SetIn(bits, block, on), other) == if other == block then on else UsedIn(bits, other)
  {
    hide UsedIn, SetIn;
    forall other: nat
      ensures UsedIn(SetIn(bits, block, on), other) == if other == block then on else UsedIn(bits, other)
    {
      SetIs(bits, block, on, other);
    }
  }

  /** The first `n` blocks marked in use, one after another. */
  function Marked(bits: Bytes, n: nat): (r: Bytes)
    ensures |r| == |bits|
  {
    if n == 0 then bits else SetIn(Marked(bits, n - 1), n - 1, true)
  }

  lemma {:induction false} MarkedIs(bits: Bytes, n: nat)
    requires n <= 8 * |bits|
    ensures forall b: nat :: UsedIn(Marked(bits, n), b) <==> b < n || UsedIn(bits, b)
  {
    hide UsedIn, SetIn;
    if n > 0 {
      MarkedIs(bits, n - 1);
      SetAll(Marked(bits, n - 1), n - 1, true);
    }
  }

  lemma {:induction false} ZeroBits(k: nat)
    ensures !Bit(0, k)
  {
    if k > 0 { ZeroBits(k - 1); }
  }

  lemma ZerosAreFree(n: nat, b: nat)
    ensures !UsedIn(Zeros(n), b)
  {
    ZeroBits(b % 8);
  }
}
