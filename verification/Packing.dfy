/** Numbers of given widths laid end to end, and rows of them: the shapes formats are written down in. */
module Packing {
  import opened Words

  /** `value`, in `width` bytes, least significant first. */
  datatype Item = Item(width: nat, value: nat)

  function Size(row: seq<Item>): nat {
    if row == [] then 0 else Size(row[..|row| - 1]) + row[|row| - 1].width
  }

  /** Every value fits its width. */
  ghost predicate Fit(row: seq<Item>) {
    forall k | 0 <= k < |row| :: row[k].value < Span(row[k].width)
  }

  /** A row, item after item. */
  function Packed(row: seq<Item>): (bytes: Bytes)
    ensures |bytes| == Size(row)
  {
    if row == [] then [] else Packed(row[..|row| - 1]) + ToLe(row[|row| - 1].value, row[|row| - 1].width)
  }

  /** Rows, one after another. */
  function Stacked(rows: seq<seq<Item>>): Bytes {
    if rows == [] then [] else Stacked(rows[..|rows| - 1]) + Packed(rows[|rows| - 1])
  }

  lemma {:induction false} SizeGrows(row: seq<Item>, k: nat)
    requires k < |row|
    ensures Size(row[..k]) + row[k].width == Size(row[..k + 1]) <= Size(row)
    decreases |row| - k
  {
    assert row[..k + 1][..k] == row[..k];
    if k + 1 == |row| {
      assert row[..k + 1] == row;
    } else {
      SizeGrows(row, k + 1);
    }
  }

  /** Where each of the items of a row ends, one after another. */
  lemma SizesRun(row: seq<Item>)
    ensures Size(row[..0]) == 0 && forall k {:trigger row[k]} | 0 <= k < |row| :: Size(row[..k + 1]) == Size(row[..k]) + row[k].width
  {
    forall k {:trigger row[k]} | 0 <= k < |row|
      ensures Size(row[..k + 1]) == Size(row[..k]) + row[k].width
    {
      SizeGrows(row, k);
    }
  }

  /** Whatever stands before and after a row, its items read back where the ones before them end. */
  lemma {:induction false} PackedReads(bytes: Bytes, at: nat, row: seq<Item>, k: nat)
    requires at + Size(row) <= |bytes| && bytes[at..at + Size(row)] == Packed(row)
    requires k < |row| && row[k].value < Span(row[k].width)
    ensures at + Size(row[..k]) + row[k].width <= at + Size(row)
    ensures At(bytes, at + Size(row[..k]), row[k].width) == Some(row[k].value)
    decreases |row|
  {
    hide ToLe, FromLe, Span;
    SizeGrows(row, k);
    var front, last := row[..|row| - 1], row[|row| - 1];
    assert bytes[at..at + Size(front)] == Packed(row)[..Size(front)] == Packed(front);
    if k < |front| {
      assert front[..k] == row[..k];
      PackedReads(bytes, at, front, k);
    } else {
      LeRoundTrip(last.value, last.width);
      assert bytes[at + Size(front)..at + Size(row)] == Packed(row)[Size(front)..] == ToLe(last.value, last.width);
    }
  }

  /** All rows are of this size. */
  ghost predicate Even(rows: seq<seq<Item>>, size: nat) {
    forall i | 0 <= i < |rows| :: Size(rows[i]) == size
  }

  lemma {:induction false} StackedSize(rows: seq<seq<Item>>, size: nat)
    requires Even(rows, size)
    ensures |Stacked(rows)| == |rows| * size
  {
    hide Size;
    if rows != [] {
      StackedSize(rows[..|rows| - 1], size);
      assert |rows| * size == (|rows| - 1) * size + size;
    }
  }

  /** Rows of one size are found at multiples of it. */
  lemma {:induction false} StackedRow(rows: seq<seq<Item>>, size: nat, r: nat)
    requires r < |rows| && Even(rows, size)
    ensures r * size + size <= |Stacked(rows)| && Stacked(rows)[r * size..r * size + size] == Packed(rows[r])
    decreases |rows|
  {
    hide Size, Packed;
    var front := rows[..|rows| - 1];
    StackedSize(front, size);
    if r < |front| {
      StackedRow(front, size, r);
      assert Stacked(rows)[..|Stacked(front)|] == Stacked(front);
      assert Stacked(rows)[r * size..r * size + size] == Stacked(front)[r * size..r * size + size];
    } else {
      assert |front| == r && Stacked(rows)[|Stacked(front)|..] == Packed(rows[r]);
    }
  }

  lemma Within(bytes: Bytes, at: nat, n: nat, start: nat, size: nat)
    requires at + n <= |bytes| && start + size <= n
    ensures bytes[at..at + n][start..start + size] == bytes[at + start..at + start + size]
  {
    var part, whole := bytes[at..at + n][start..start + size], bytes[at + start..at + start + size];
    forall k | 0 <= k < size
      ensures part[k] == whole[k]
    {
      assert bytes[at..at + n][start + k] == bytes[at + (start + k)];
    }
  }

  /** Item `k` of row `r`, wherever the rows stand. */
  lemma StackedReads(bytes: Bytes, at: nat, rows: seq<seq<Item>>, size: nat, r: nat, k: nat)
    requires r < |rows| && Even(rows, size)
    requires at + |Stacked(rows)| <= |bytes| && bytes[at..at + |Stacked(rows)|] == Stacked(rows)
    requires k < |rows[r]| && rows[r][k].value < Span(rows[r][k].width)
    ensures r * size + size <= |Stacked(rows)|
    ensures Size(rows[r][..k]) + rows[r][k].width <= size
    ensures At(bytes, at + r * size + Size(rows[r][..k]), rows[r][k].width) == Some(rows[r][k].value)
  {
    hide Packed, Stacked, Size;
    StackedRow(rows, size, r);
    var start := r * size;
    Within(bytes, at, |Stacked(rows)|, start, size);
    PackedReads(bytes, at + start, rows[r], k);
  }
}
