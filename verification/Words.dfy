/** Bytes, fixed-width numbers and the two failure types every other module uses. */
module Words {
  datatype Option<+T> = None | Some(value: T)

  datatype Result<+T, +E> = Ok(value: T) | Err(error: E)

  type Byte = b: int | 0 <= b < 256

  type Bytes = seq<Byte>

  const U16: nat := 0x1_0000
  const U32: nat := 0x1_0000_0000
  const U64: nat := 0x1_0000_0000_0000_0000

  function Zeros(n: nat): (z: Bytes)
    ensures |z| == n
  {
    seq(n, _ => 0)
  }

  /** How many values fit in `width` bytes. */
  function Span(width: nat): (n: nat)
    ensures n > 0
  {
    if width == 0 then 1 else 256 * Span(width - 1)
  }

  /** The number `bytes` spells, least significant byte first. */
  function FromLe(bytes: Bytes): (n: nat)
    ensures n < Span(|bytes|)
  {
    if bytes == [] then 0 else bytes[0] + 256 * FromLe(bytes[1..])
  }

  /** `n` in `width` bytes, least significant first; higher bytes are dropped. */
  function ToLe(n: nat, width: nat): (bytes: Bytes)
    ensures |bytes| == width
  {
    if width == 0 then [] else [n % 256] + ToLe(n / 256, width - 1)
  }

  lemma {:induction false} LeRoundTrip(n: nat, width: nat)
    requires n < Span(width)
    ensures FromLe(ToLe(n, width)) == n
  {
    if width > 0 {
      LeRoundTrip(n / 256, width - 1);
      assert ToLe(n, width)[1..] == ToLe(n / 256, width - 1);
    }
  }

  lemma Spans()
    ensures Span(2) == U16 && Span(4) == U32 && Span(8) == U64
  {
    assert Span(2) == 256 * Span(1) && Span(1) == 256 * Span(0);
    assert Span(4) == 256 * Span(3) && Span(3) == 256 * Span(2);
    assert Span(6) == 256 * Span(5) && Span(5) == 256 * Span(4);
    assert Span(8) == 256 * Span(7) && Span(7) == 256 * Span(6);
  }

  /** The `width`-byte number at `at`, or `None` if it does not fit. */
  function At(bytes: Bytes, at: nat, width: nat): (r: Option<nat>)
    ensures r.Some? <==> at + width <= |bytes|
    ensures r.Some? ==> r.value < Span(width)
  {
    if at + width <= |bytes| then Some(FromLe(bytes[at..at + width])) else None
  }

  /** `bytes` with `value` written over it at `at`. */
  function Written(bytes: Bytes, at: nat, value: Bytes): (r: Bytes)
    requires at + |value| <= |bytes|
    ensures |r| == |bytes|
    ensures r[at..at + |value|] == value
    ensures forall i | 0 <= i < |bytes| && !(at <= i < at + |value|) :: r[i] == bytes[i]
  {
    bytes[..at] + value + bytes[at + |value|..]
  }

  /** What was written as a number reads back as that number. */
  lemma WrittenReads(bytes: Bytes, at: nat, n: nat, width: nat)
    requires at + width <= |bytes| && n < Span(width)
    ensures At(Written(bytes, at, ToLe(n, width)), at, width) == Some(n)
  {
    LeRoundTrip(n, width);
  }

  /** A number outside the written range reads as it did. */
  lemma WrittenElsewhere(bytes: Bytes, at: nat, value: Bytes, other: nat, width: nat)
    requires at + |value| <= |bytes|
    requires other + width <= at || at + |value| <= other
    ensures At(Written(bytes, at, value), other, width) == At(bytes, other, width)
  {
    if other + width <= |bytes| {
      assert Written(bytes, at, value)[other..other + width] == bytes[other..other + width];
    }
  }
}
