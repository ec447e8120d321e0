/** Fixed-layout records: numbers put one after another into bytes, then sealed with a checksum. */
module Records {
  import opened Words
  import Checksum

  /** `value`, in `width` bytes at `at`. */
  datatype Field = Field(at: nat, width: nat, value: nat)

  /** Every field lies inside `size` bytes and its value inside its width. */
  ghost predicate Fits(fields: seq<Field>, size: nat) {
    forall i | 0 <= i < |fields| ::
      fields[i].at + fields[i].width <= size && fields[i].value < Span(fields[i].width)
  }

  /** No two fields share a byte. */
  ghost predicate Disjoint(fields: seq<Field>) {
    forall i, j | 0 <= i < j < |fields| :: fields[i].at + fields[i].width <= fields[j].at
  }

  function PutAll(bytes: Bytes, fields: seq<Field>): (r: Bytes)
    requires forall i | 0 <= i < |fields| :: fields[i].at + fields[i].width <= |bytes|
    ensures |r| == |bytes|
  {
    if fields == [] then bytes
    else
      var last := fields[|fields| - 1];
      Written(PutAll(bytes, fields[..|fields| - 1]), last.at, ToLe(last.value, last.width))
  }

  /** Each field reads back as it was put, whatever is put after it. */
  lemma {:induction false} PutReads(bytes: Bytes, fields: seq<Field>, k: nat)
    requires Fits(fields, |bytes|) && Disjoint(fields) && k < |fields|
    ensures At(PutAll(bytes, fields), fields[k].at, fields[k].width) == Some(fields[k].value)
    decreases |fields|
  {
    var front, last := fields[..|fields| - 1], fields[|fields| - 1];
    if k == |fields| - 1 {
      WrittenReads(PutAll(bytes, front), last.at, last.value, last.width);
    } else {
      PutReads(bytes, front, k);
      WrittenElsewhere(PutAll(bytes, front), last.at, ToLe(last.value, last.width), fields[k].at, fields[k].width);
    }
  }

  /** Each field starts where the one before ended, the first at zero. */
  ghost predicate Tiled(fields: seq<Field>) {
    forall i | 0 <= i < |fields| :: fields[i].at == if i == 0 then 0 else fields[i - 1].at + fields[i - 1].width
  }

  ghost function End(fields: seq<Field>): nat {
    if fields == [] then 0 else fields[|fields| - 1].at + fields[|fields| - 1].width
  }

  lemma {:induction false} LeTells(x: Bytes, y: Bytes)
    requires |x| == |y| && FromLe(x) == FromLe(y)
    ensures x == y
  {
    if x != [] {
      LeTells(x[1..], y[1..]);
      assert x == [x[0]] + x[1..] && y == [y[0]] + y[1..];
    }
  }

  /** Bytes whose every field reads alike are alike as far as the fields reach. */
  lemma {:induction false} TiledTells(x: Bytes, y: Bytes, fields: seq<Field>)
    requires Tiled(fields) && End(fields) <= |x| && End(fields) <= |y|
    requires forall k | 0 <= k < |fields| :: At(x, fields[k].at, fields[k].width) == At(y, fields[k].at, fields[k].width)
    ensures x[..End(fields)] == y[..End(fields)]
  {
    if fields != [] {
      var front, last := fields[..|fields| - 1], fields[|fields| - 1];
      TiledTells(x, y, front);
      LeTells(x[last.at..End(fields)], y[last.at..End(fields)]);
      assert x[..End(fields)] == x[..last.at] + x[last.at..End(fields)];
      assert y[..End(fields)] == y[..last.at] + y[last.at..End(fields)];
    }
  }

  /** The fields over zeros, with the checksum of the first `covered` bytes after them. */
  function Sealed(size: nat, fields: seq<Field>, covered: nat): (r: Bytes)
    requires covered + 4 <= size
    requires forall i | 0 <= i < |fields| :: fields[i].at + fields[i].width <= covered
    ensures |r| == size
  {
    var body := PutAll(Zeros(size), fields);
    Written(body, covered, ToLe(Checksum.Of(body[..covered]), 4))
  }

  /** A sealed record carries its own checksum. */
  lemma SealedChecks(size: nat, fields: seq<Field>, covered: nat)
    requires covered + 4 <= size && Fits(fields, covered)
    ensures At(Sealed(size, fields, covered), covered, 4) == Some(Checksum.Of(Sealed(size, fields, covered)[..covered]))
  {
    var body := PutAll(Zeros(size), fields);
    Spans();
    WrittenReads(body, covered, Checksum.Of(body[..covered]), 4);
    assert Sealed(size, fields, covered)[..covered] == body[..covered];
  }

  /** A sealed record's fields read back. */
  lemma SealedReads(size: nat, fields: seq<Field>, covered: nat, k: nat)
    requires covered + 4 <= size && Fits(fields, covered) && Disjoint(fields) && k < |fields|
    ensures At(Sealed(size, fields, covered), fields[k].at, fields[k].width) == Some(fields[k].value)
  {
    var body := PutAll(Zeros(size), fields);
    PutReads(Zeros(size), fields, k);
    WrittenElsewhere(body, covered, ToLe(Checksum.Of(body[..covered]), 4), fields[k].at, fields[k].width);
  }
}
