/** Powers of two, and the base-2^b digits of a byte string. */
module Digits {
  import opened Words

  function Pow2(n: nat): (p: nat)
    ensures p > 0
  {
    if n == 0 then 1 else 2 * Pow2(n - 1)
  }

  lemma {:induction false} Pow2Adds(a: nat, b: nat)
    ensures Pow2(a + b) == Pow2(a) * Pow2(b)
  {
    if a > 0 {
      Pow2Adds(a - 1, b);
      assert Pow2(a + b) == 2 * (Pow2(a - 1) * Pow2(b)) == (2 * Pow2(a - 1)) * Pow2(b);
    }
  }

  lemma {:induction false} Pow2Grows(a: nat, b: nat)
    requires a <= b
    ensures Pow2(a) <= Pow2(b)
  {
    if a < b { Pow2Grows(a, b - 1); }
  }

  lemma Pow2Small()
    ensures Pow2(3) == 8 && Pow2(4) == 16 && Pow2(8) == 256 && Pow2(9) == 512 && Pow2(12) == 4096
  {
    assert Pow2(4) == 16;
    assert Pow2(8) == 256;
    assert Pow2(12) == 4096;
  }

  /** Algorithm 2 of FIPS 205, `toInt`: bytes most significant first. */
  function ToInt(x: Bytes): nat {
    if x == [] then 0 else 256 * ToInt(x[..|x| - 1]) + x[|x| - 1]
  }

  lemma {:induction false} ToIntBelow(x: Bytes)
    ensures ToInt(x) < Pow2(8 * |x|)
  {
    if x != [] {
      ToIntBelow(x[..|x| - 1]);
      Pow2Small();
      Pow2Adds(8, 8 * (|x| - 1));
    }
  }

  /** Bytes end to end are one number: the front shifted past the back. */
  lemma {:induction false} ToIntJoins(x: Bytes, y: Bytes)
    ensures ToInt(x + y) == ToInt(x) * Pow2(8 * |y|) + ToInt(y)
  {
    if y == [] {
      assert x + y == x;
    } else {
      var front := y[..|y| - 1];
      ToIntJoins(x, front);
      assert (x + y)[..|x + y| - 1] == x + front;
      Pow2Small();
      Pow2Adds(8, 8 * |front|);
      assert 256 * (ToInt(x) * Pow2(8 * |front|)) == ToInt(x) * (256 * Pow2(8 * |front|));
    }
  }

  /** How many bytes must be read before digit `i` is known. */
  function Need(i: nat, b: nat): nat {
    ((i + 1) * b + 7) / 8
  }

  /**
   Digit `i` as Algorithm 4 of FIPS 205 (section 4.4) defines it: the bytes read so
   far as one ever-growing integer, shifted by the bits not yet used, modulo 2^b.
   */
  function Digit(x: Bytes, b: nat, i: nat): (d: nat)
    requires Need(i, b) <= |x|
  {
    (ToInt(x[..Need(i, b)]) / Pow2(8 * Need(i, b) - (i + 1) * b)) % Pow2(b)
  }

  // ----- the arithmetic of keeping only the unread bits

  lemma DivMod(n: nat, d: nat, q: nat, r: nat)
    requires d > 0 && r < d && n == q * d + r
    ensures n / d == q && n % d == r
  {
    var q', r' := n / d, n % d;
    assert (q' + 1) * d == q' * d + d && (q + 1) * d == q * d + d;
    if q' < q {
      MulGrows(q' + 1, q, d);
    } else if q' > q {
      MulGrows(q + 1, q', d);
    }
  }

  lemma AppendMod(t: nat, p: nat, byte: Byte)
    requires p > 0
    ensures (256 * t + byte) % (256 * p) == 256 * (t % p) + byte
  {
    var q, r := t / p, t % p;
    var m := q * p;
    assert t == m + r;
    assert q * (256 * p) == 256 * m;
    DivMod(256 * t + byte, 256 * p, q, 256 * r + byte);
  }

  /** Appending a byte to the kept bits is keeping the bits of the appended number. */
  lemma ModAppend(t: nat, bits: nat, byte: Byte)
    ensures (256 * t + byte) % Pow2(bits + 8) == 256 * (t % Pow2(bits)) + byte
  {
    hide Pow2;
    Pow2Small();
    Pow2Adds(8, bits);
    AppendMod(t, Pow2(bits), byte);
  }

  lemma Below(a: nat, p: nat, w: nat, r: nat)
    requires p > 0 && a * p + r < w * p
    ensures a < w
  {
    if a >= w {
      MulGrows(w, a, p);
    }
  }

  lemma MulGrows(a: nat, b: nat, p: nat)
    requires a <= b
    ensures a * p <= b * p
  {
  }

  lemma SplitMod(t: nat, p: nat, w: nat)
    requires p > 0 && w > 0 && p * w > 0
    ensures (t % (p * w)) / p == (t / p) % w
    ensures (t % (p * w)) % p == t % p
  {
    var q, r := t / (p * w), t % (p * w);
    var q', r' := r / p, r % p;
    Recombine(p, w, q, q', r');
    DivMod(t, p, q * w + q', r');
    Below(q', p, w, r');
    DivMod(q * w + q', w, q, q');
  }

  lemma Recombine(p: nat, w: nat, q: nat, q': nat, r': nat)
    ensures q * (p * w) + (q' * p + r') == (q * w + q') * p + r'
    ensures p * w == w * p
  {
    var m := q * w;
    assert (m + q') * p == m * p + q' * p;
    MulSwap(q, p, w);
  }

  lemma MulSwap(q: nat, p: nat, w: nat)
    ensures q * (p * w) == (q * w) * p
  {
  }

  lemma DivDiv(n: nat, p: nat, q: nat)
    requires 0 < p && 0 < q && 0 < p * q
    ensures n / p / q == n / (p * q)
  {
    var x, r := n / (p * q), n % (p * q);
    var y, z := r / p, r % p;
    Recombine(p, q, x, y, z);
    DivMod(n, p, x * q + y, z);
    Below(y, p, q, z);
    DivMod(n / p, q, x, y);
  }

  /** A multiple of a multiple of `p` makes no difference to a remainder by `p`. */
  lemma ModDrops(a: nat, m: nat, p: nat, x: nat)
    requires p > 0
    ensures (a * (m * p) + x) % p == x % p
  {
    var c, r := x / p, x % p;
    var k := a * m;
    assert a * (m * p) == k * p;
    assert (k + c) * p == k * p + c * p;
    DivMod(a * (m * p) + x, p, k + c, r);
  }

  /** A front of a byte string is the whole shifted down. */
  lemma FrontIsShifted(x: Bytes, n: nat)
    requires n <= |x|
    ensures ToInt(x[..n]) == ToInt(x) / Pow2(8 * (|x| - n))
  {
    hide ToInt, Pow2;
    assert x[..n] + x[n..] == x;
    ToIntJoins(x[..n], x[n..]);
    ToIntBelow(x[n..]);
    DivMod(ToInt(x), Pow2(8 * (|x| - n)), ToInt(x[..n]), ToInt(x[n..]));
  }

  /** A digit is cut out of the whole string as one number. */
  lemma DigitOfWhole(x: Bytes, b: nat, i: nat)
    requires Need(i, b) <= |x|
    ensures (i + 1) * b <= 8 * |x| && Digit(x, b, i) == ToInt(x) / Pow2(8 * |x| - (i + 1) * b) % Pow2(b)
  {
    hide ToInt, Pow2;
    var n := Need(i, b);
    var over, under := 8 * (|x| - n), 8 * n - (i + 1) * b;
    FrontIsShifted(x, n);
    Pow2Adds(over, under);
    DivDiv(ToInt(x), Pow2(over), Pow2(under));
  }

  /** The top `b` of the kept bits are the digit, and the rest are what is kept next. */
  lemma ModSplit(t: nat, rest: nat, b: nat)
    ensures (t % Pow2(rest + b)) / Pow2(rest) == (t / Pow2(rest)) % Pow2(b)
    ensures (t % Pow2(rest + b)) % Pow2(rest) == t % Pow2(rest)
  {
    hide Pow2;
    Pow2Adds(rest, b);
    SplitMod(t, Pow2(rest), Pow2(b));
  }

  /** Reads bytes in until `b` bits are held; the accumulator never passes 32 bits. */
  method Refill(x: Bytes, b: nat, input: nat, bits: nat, total: nat) returns (input': nat, bits': nat, total': nat)
    requires 0 < b <= 24 && bits < 8 && input <= |x| && 8 * input + b - bits <= 8 * |x|
    requires total == ToInt(x[..input]) % Pow2(bits)
    ensures input <= input' <= |x| && 8 * (input' - input) == bits' - bits && b <= bits' < b + 8
    ensures total' == ToInt(x[..input']) % Pow2(bits') && total' < U32
  {
    hide Pow2;
    input', bits', total' := input, bits, total;
    Small(total, bits);
    while bits' < b
      invariant input <= input' <= |x| && 8 * (input' - input) == bits' - bits && bits' < b + 8
      invariant total' == ToInt(x[..input']) % Pow2(bits') && total' < U32
    {
      ModAppend(ToInt(x[..input']), bits', x[input']);
      assert x[..input' + 1][..input'] == x[..input'];
      FitsWord(ToInt(x[..input']), bits');
      total' := total' * 256 + x[input'];
      input' := input' + 1;
      bits' := bits' + 8;
    }
  }

  lemma Small(total: nat, bits: nat)
    requires bits < 8 && total < Pow2(bits)
    ensures total < U32
  {
    Pow2Grows(bits, 8);
    Pow2Small();
  }

  /** How many bits `i` digits of `b` bits take. */
  function Used(i: nat, b: nat): nat {
    i * b
  }

  /** Filling up from `i * b` bits used needs no byte past those digit `i` needs. */
  lemma NeedEnough(i: nat, b: nat, input: nat, bits: nat)
    requires 8 * input == Used(i, b) + bits && bits < 8
    ensures 8 * Need(i, b) >= 8 * input + b - bits
  {
    assert (i + 1) * b == i * b + b;
  }

  /** The first time `b` bits are held, exactly the bytes digit `i` needs have been read. */
  lemma NeedIs(i: nat, b: nat, input: nat, bits: nat)
    requires 8 * input == Used(i, b) + bits && b <= bits < b + 8
    ensures input == Need(i, b) && 8 * input == Used(i + 1, b) + (bits - b)
  {
    assert (i + 1) * b == i * b + b;
  }

  /** Algorithm 4 as the verifier runs it, keeping only the bits not yet read out. */
  method Base2b(x: Bytes, b: nat, out: nat) returns (digits: seq<nat>)
    requires 0 < b <= 24 && (out > 0 ==> Need(out - 1, b) <= |x|)
    ensures |digits| == out
    ensures forall i | 0 <= i < out :: Need(i, b) <= |x| && digits[i] == Digit(x, b, i)
  {
    assert Used(0, b) == 0;
    assert ToInt(x[..0]) % Pow2(0) == 0;
    hide Pow2, Digit, Need, Used, Top;
    digits := [];
    var input: nat, bits: nat, total: nat := 0, 0, 0;
    for i := 0 to out
      invariant |digits| == i && input <= |x| && 8 * input == Used(i, b) + bits && bits < 8
      invariant total == ToInt(x[..input]) % Pow2(bits)
      invariant forall j | 0 <= j < i :: Need(j, b) <= |x| && digits[j] == Digit(x, b, j)
    {
      NeedGrows(i, out - 1, b);
      NeedEnough(i, b, input, bits);
      input, bits, total := Refill(x, b, input, bits, total);
      NeedIs(i, b, input, bits);
      bits := bits - b;
      TopIsDigit(x, b, i, bits, total);
      digits := digits + [Top(total, bits, b)];
      total := total % Pow2(bits);
    }
  }

  /** The digit above the lowest `bits` of the accumulator. */
  function Top(total: nat, bits: nat, b: nat): nat {
    (total / Pow2(bits)) % Pow2(b)
  }

  lemma TopIsDigit(x: Bytes, b: nat, i: nat, bits: nat, total: nat)
    requires Need(i, b) <= |x| && 8 * Need(i, b) == Used(i + 1, b) + bits
    requires total == ToInt(x[..Need(i, b)]) % Pow2(bits + b)
    ensures Top(total, bits, b) == Digit(x, b, i) && total % Pow2(bits) == ToInt(x[..Need(i, b)]) % Pow2(bits)
  {
    hide Pow2, Digit, Need, Used;
    var t := ToInt(x[..Need(i, b)]);
    ModSplit(t, bits, b);
    ModTwice(t / Pow2(bits), Pow2(b));
    DigitRead(x, b, i, bits);
  }

  lemma ModTwice(n: nat, d: nat)
    requires d > 0
    ensures (n % d) % d == n % d
  {
  }

  lemma NeedGrows(i: nat, j: nat, b: nat)
    requires i <= j
    ensures Need(i, b) <= Need(j, b)
  {
    assert (i + 1) * b <= (j + 1) * b;
  }

  /** With fewer than 24 bits kept, another byte still fits in 32. */
  lemma FitsWord(t: nat, bits: nat)
    requires bits < 24
    ensures (t % Pow2(bits)) * 256 + 255 < U32
  {
    Pow2Grows(bits, 24);
    Pow2Adds(12, 12);
    Pow2Small();
  }

  lemma DigitRead(x: Bytes, b: nat, i: nat, bits: nat)
    requires Need(i, b) <= |x| && 8 * Need(i, b) == Used(i + 1, b) + bits
    ensures Digit(x, b, i) == (ToInt(x[..Need(i, b)]) / Pow2(bits)) % Pow2(b)
  {
    hide Pow2, ToInt, Need;
    assert 8 * Need(i, b) - (i + 1) * b == bits;
  }

  /** Algorithm 4 as the standard writes it, the accumulator never cut. */
  method Base2bStandard(x: Bytes, b: nat, out: nat) returns (digits: seq<nat>)
    requires 0 < b && (out > 0 ==> Need(out - 1, b) <= |x|)
    ensures |digits| == out
    ensures forall i | 0 <= i < out :: Need(i, b) <= |x| && digits[i] == Digit(x, b, i)
  {
    digits := [];
    var input, bits, total := 0, 0, 0;
    for i := 0 to out
      invariant |digits| == i && input <= |x| && 8 * input == i * b + bits && bits < 8
      invariant total == ToInt(x[..input])
      invariant forall j | 0 <= j < i :: Need(j, b) <= |x| && digits[j] == Digit(x, b, j)
    {
      NeedGrows(i, out - 1, b);
      while bits < b
        invariant input <= Need(i, b) && 8 * input == i * b + bits && bits < b + 8
        invariant bits >= b ==> input == Need(i, b)
        invariant total == ToInt(x[..input])
      {
        assert x[..input + 1][..input] == x[..input];
        total := 256 * total + x[input];
        input := input + 1;
        bits := bits + 8;
      }
      bits := bits - b;
      digits := digits + [(total / Pow2(bits)) % Pow2(b)];
      DigitRead(x, b, i, bits);
    }
  }
}
