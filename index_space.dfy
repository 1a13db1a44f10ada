/** `index_space_t<S>` of mist.hpp: a box of S-dimensional integer
    indices given by a start corner and a shape, with the row-major
    (last axis fastest) map between indices and flat offsets.
    Shapes are `unsigned int` in C++; here they are naturals, and sizes
    are unbounded (no 32-bit wrap-around). */
module Indexing {
  import opened Vec

  datatype IndexSpace = IndexSpace(start: seq<int>, shape: seq<nat>) {
    /** Both corners have the static dimension S, and S > 0. */
    predicate Valid() {
      |start| == |shape| > 0
    }
  }

  // ---------------------------------------------------------------------
  // Specification functions
  // ---------------------------------------------------------------------

  /** idx lies in the box: start[i] <= idx[i] < start[i] + shape[i] on
      every axis. */
  predicate InSpace(space: IndexSpace, idx: seq<int>)
    requires space.Valid() && |idx| == |space.start|
  {
    forall i :: 0 <= i < |idx| ==> space.start[i] <= idx[i] < space.start[i] + space.shape[i]
  }

  /** Row-major offset of the per-axis displacements d in a box of shape
      sh: the last axis varies fastest. */
  function OffsetOf(d: seq<int>, sh: seq<int>): int
    requires |d| == |sh|
  {
    if |d| == 0 then 0
    else OffsetOf(d[..|d| - 1], sh[..|sh| - 1]) * sh[|sh| - 1] + d[|d| - 1]
  }

  /** The per-axis displacements whose row-major offset is n: the mixed
      radix digits of n, least significant on the last axis. */
  function Digits(sh: seq<int>, n: nat): (r: seq<int>)
    requires forall i :: 0 <= i < |sh| ==> sh[i] > 0
    ensures |r| == |sh|
  {
    if |sh| == 0 then []
    else Digits(sh[..|sh| - 1], n / sh[|sh| - 1]) + [n % sh[|sh| - 1]]
  }

  /** ndoffset on the model's terms. */
  function NdOffsetOf(space: IndexSpace, idx: seq<int>): int
    requires space.Valid() && |idx| == |space.start|
  {
    OffsetOf(Minus(idx, space.start), space.shape)
  }

  /** ndindex on the model's terms. */
  function NdIndexOf(space: IndexSpace, n: nat): seq<int>
    requires space.Valid()
    requires forall i :: 0 <= i < |space.shape| ==> space.shape[i] > 0
  {
    Plus(space.start, Digits(space.shape, n))
  }

  /** size(space) on the model's terms: the product of the shape. */
  function SizeOf(space: IndexSpace): int
  {
    ProductOf(space.shape)
  }

  // ---------------------------------------------------------------------
  // The functions of mist.hpp, as the loops they are
  // ---------------------------------------------------------------------

  /** size(space): multiplies the shape components into `total`. */
  method Size(space: IndexSpace) returns (total: int)
    ensures total == SizeOf(space)
  {
    total := 1;
    for i := 0 to |space.shape|
      invariant total == ProductOf(space.shape[..i])
    {
      assert space.shape[..i + 1][..i] == space.shape[..i];
      total := total * space.shape[i];
    }
    assert space.shape[..|space.shape|] == space.shape;
  }

  /** contains(space, index): fails at the first axis out of range. */
  method Contains(space: IndexSpace, idx: seq<int>) returns (r: bool)
    requires space.Valid() && |idx| == |space.start|
    ensures r <==> InSpace(space, idx)
  {
    for i := 0 to |idx|
      invariant forall k :: 0 <= k < i ==> space.start[k] <= idx[k] < space.start[k] + space.shape[k]
    {
      if idx[i] < space.start[i] || idx[i] >= space.start[i] + space.shape[i] {
        return false;
      }
    }
    return true;
  }

  /** ndoffset(space, index): walks the axes from the last to the first,
      adding each displacement times the running stride. Outside the
      box a displacement can be negative; C++ then wraps it modulo 2^64
      (size_t), which this model does not do. */
  method NdOffset(space: IndexSpace, idx: seq<int>) returns (offset: int)
    requires space.Valid() && |idx| == |space.start|
    ensures offset == NdOffsetOf(space, idx)
  {
    ghost var d := Minus(idx, space.start);
    ghost var sh: seq<int> := space.shape;
    offset := 0;
    var stride := 1;
    var i := |idx|;
    assert d[..i] == d && sh[..i] == sh;
    while i > 0
      invariant 0 <= i <= |idx|
      invariant OffsetOf(d, sh) == OffsetOf(d[..i], sh[..i]) * stride + offset
    {
      ghost var before := OffsetOf(d[..i - 1], sh[..i - 1]);
      assert d[..i][..i - 1] == d[..i - 1] && sh[..i][..i - 1] == sh[..i - 1];
      assert OffsetOf(d[..i], sh[..i]) == before * sh[i - 1] + d[i - 1];
      Restride(before, sh[i - 1], d[i - 1], stride, offset);
      offset := offset + (idx[i - 1] - space.start[i - 1]) * stride;
      stride := stride * space.shape[i - 1];
      i := i - 1;
    }
    assert d[..0] == [] && sh[..0] == [];
  }

  /** ndindex(space, offset): peels the mixed-radix digits off the offset
      from the last axis to the first. Every axis length must be positive
      (C++ divides by it). */
  method NdIndex(space: IndexSpace, n: nat) returns (idx: seq<int>)
    requires space.Valid()
    requires forall i :: 0 <= i < |space.shape| ==> space.shape[i] > 0
    ensures idx == NdIndexOf(space, n)
  {
    ghost var sh: seq<int> := space.shape;
    ghost var tail: seq<int> := [];
    var dims := |space.shape|;
    idx := seq(dims, _ => 0);
    var offset: nat := n;
    var i := dims;
    assert sh[..dims] == sh;
    while i > 0
      invariant 0 <= i <= dims && |idx| == dims && |tail| == dims - i
      invariant Digits(sh, n) == Digits(sh[..i], offset) + tail
      invariant forall j :: i <= j < dims ==> idx[j] == space.start[j] + tail[j - i]
    {
      assert sh[..i][..i - 1] == sh[..i - 1];
      idx := idx[i - 1 := space.start[i - 1] + offset % space.shape[i - 1]];
      tail := [offset % space.shape[i - 1]] + tail;
      offset := offset / space.shape[i - 1];
      i := i - 1;
    }
  }

  // ---------------------------------------------------------------------
  // Arithmetic helpers
  // ---------------------------------------------------------------------

  lemma DivModOf(q: int, s: int, r: int)
    requires s > 0 && 0 <= r < s
    ensures (q * s + r) / s == q && (q * s + r) % s == r
  {
    var m := q * s + r;
    var q', r' := m / s, m % s;
    assert m == q' * s + r' && 0 <= r' < s;
    var e := q - q';
    assert e * s == r' - r by {
      assert q * s - q' * s == (q - q') * s;
    }
  }

  /** Moving one axis from the offset into the stride. */
  lemma Restride(a: int, s: int, d: int, stride: int, offset: int)
    ensures (a * s + d) * stride + offset == a * (stride * s) + (offset + d * stride)
  {
  }

  lemma QuotientBelow(n: nat, s: int, p: int)
    requires s > 0 && n < p * s
    ensures n / s < p
  {
    var q := n / s;
    assert n == q * s + n % s;
    assert q * s - p * s == (q - p) * s;
  }

  // ---------------------------------------------------------------------
  // The bijection between contained indices and offsets below size
  // ---------------------------------------------------------------------

  /** Displacements inside a box have an offset below its size. */
  lemma {:induction false} OffsetInRange(d: seq<int>, sh: seq<int>)
    requires |d| == |sh|
    requires forall i :: 0 <= i < |d| ==> 0 <= d[i] < sh[i]
    ensures 0 <= OffsetOf(d, sh) < ProductOf(sh)
  {
    if |d| > 0 {
      var k := |d| - 1;
      OffsetInRange(d[..k], sh[..k]);
      var a := OffsetOf(d[..k], sh[..k]);
      var p := ProductOf(sh[..k]);
      assert a <= p - 1;
      assert a * sh[k] <= (p - 1) * sh[k];
      assert a * sh[k] >= 0;
    }
  }

  /** Digits inverts OffsetOf on the box. */
  lemma {:induction false} DigitsOfOffset(d: seq<int>, sh: seq<int>)
    requires |d| == |sh|
    requires forall i :: 0 <= i < |d| ==> 0 <= d[i] < sh[i]
    ensures OffsetOf(d, sh) >= 0
    ensures Digits(sh, OffsetOf(d, sh)) == d
  {
    OffsetInRange(d, sh);
    if |d| > 0 {
      var k := |d| - 1;
      OffsetInRange(d[..k], sh[..k]);
      var a := OffsetOf(d[..k], sh[..k]);
      DivModOf(a, sh[k], d[k]);
      DigitsOfOffset(d[..k], sh[..k]);
      assert d == d[..k] + [d[k]];
    }
  }

  /** Every digit lies in its axis: 0 <= digit < axis length. */
  lemma {:induction false} DigitsInRange(sh: seq<int>, n: nat)
    requires forall i :: 0 <= i < |sh| ==> sh[i] > 0
    ensures forall i :: 0 <= i < |sh| ==> 0 <= Digits(sh, n)[i] < sh[i]
  {
    if |sh| > 0 {
      var k := |sh| - 1;
      var s := sh[k];
      DigitsInRange(sh[..k], n / s);
      var ds := Digits(sh, n);
      assert ds == Digits(sh[..k], n / s) + [n % s];
      forall i | 0 <= i < |sh|
        ensures 0 <= ds[i] < sh[i]
      {
        if i < k {
          assert ds[i] == Digits(sh[..k], n / s)[i];
          assert sh[i] == sh[..k][i];
        }
      }
    }
  }

  /** OffsetOf inverts Digits below the size. */
  lemma {:induction false} OffsetOfDigits(sh: seq<int>, n: nat)
    requires forall i :: 0 <= i < |sh| ==> sh[i] > 0
    requires n < ProductOf(sh)
    ensures OffsetOf(Digits(sh, n), sh) == n
    ensures forall i :: 0 <= i < |sh| ==> 0 <= Digits(sh, n)[i] < sh[i]
  {
    DigitsInRange(sh, n);
    if |sh| > 0 {
      var k := |sh| - 1;
      var s := sh[k];
      QuotientBelow(n, s, ProductOf(sh[..k]));
      OffsetOfDigits(sh[..k], n / s);
      var ds := Digits(sh, n);
      assert ds[..k] == Digits(sh[..k], n / s);
      assert OffsetOf(ds, sh) == OffsetOf(ds[..k], sh[..k]) * s + ds[k];
      assert OffsetOf(ds[..k], sh[..k]) == n / s;
      assert ds[k] == n % s;
    }
  }

  /** A contained index has an offset below size(space). */
  lemma NdOffsetBelowSize(space: IndexSpace, idx: seq<int>)
    requires space.Valid() && |idx| == |space.start|
    requires InSpace(space, idx)
    ensures 0 <= NdOffsetOf(space, idx) < SizeOf(space)
  {
    OffsetInRange(Minus(idx, space.start), space.shape);
  }

  /** ndindex(space, ndoffset(space, idx)) == idx for a contained idx. */
  lemma NdIndexOfNdOffset(space: IndexSpace, idx: seq<int>)
    requires space.Valid() && |idx| == |space.start|
    requires InSpace(space, idx)
    ensures forall i :: 0 <= i < |space.shape| ==> space.shape[i] > 0
    ensures NdOffsetOf(space, idx) >= 0
    ensures NdIndexOf(space, NdOffsetOf(space, idx)) == idx
  {
    var d := Minus(idx, space.start);
    forall i | 0 <= i < |d|
      ensures 0 <= d[i] < space.shape[i]
    {
      assert space.start[i] <= idx[i] < space.start[i] + space.shape[i];
    }
    DigitsOfOffset(d, space.shape);
    var back := Plus(space.start, d);
    assert |back| == |idx|;
    forall i | 0 <= i < |idx|
      ensures back[i] == idx[i]
    {
    }
  }

  /** For n < size(space), ndindex(space, n) is contained and
      ndoffset(space, ndindex(space, n)) == n. */
  lemma NdOffsetOfNdIndex(space: IndexSpace, n: nat)
    requires space.Valid()
    requires n < SizeOf(space)
    ensures forall i :: 0 <= i < |space.shape| ==> space.shape[i] > 0
    ensures InSpace(space, NdIndexOf(space, n))
    ensures NdOffsetOf(space, NdIndexOf(space, n)) == n
  {
    ProductOfNaturals(space.shape);
    OffsetOfDigits(space.shape, n);
    var ds := Digits(space.shape, n);
    assert Minus(NdIndexOf(space, n), space.start) == ds;
  }

  /** Distinct contained indices never share a buffer cell. */
  lemma NdOffsetInjective(space: IndexSpace, i: seq<int>, j: seq<int>)
    requires space.Valid() && |i| == |space.start| && |j| == |space.start|
    requires InSpace(space, i) && InSpace(space, j)
    requires NdOffsetOf(space, i) == NdOffsetOf(space, j)
    ensures i == j
  {
    NdIndexOfNdOffset(space, i);
    NdIndexOfNdOffset(space, j);
  }

  /** Row-major offset in a two-dimensional box. */
  lemma OffsetOf2(a: int, b: int, rows: int, cols: int)
    ensures OffsetOf([a, b], [rows, cols]) == a * cols + b
  {
    assert [a, b][..1] == [a] && [rows, cols][..1] == [rows];
    assert [a][..0] == [] && [rows][..0] == [];
    assert OffsetOf([a], [rows]) == a;
  }

  /** The values demo.cpp prints for ndoffset (section 14). */
  lemma DemoOffsets()
    ensures NdOffsetOf(IndexSpace([0, 0], [10, 20]), [2, 3]) == 43
    ensures NdOffsetOf(IndexSpace([0, 0], [10, 20]), [9, 19]) == 199
    ensures NdOffsetOf(IndexSpace([2, 4], [10, 20]), [7, 13]) == 109
  {
    assert Minus([2, 3], [0, 0]) == [2, 3];
    assert Minus([9, 19], [0, 0]) == [9, 19];
    assert Minus([7, 13], [2, 4]) == [5, 9];
    OffsetOf2(2, 3, 10, 20);
    OffsetOf2(9, 19, 10, 20);
    OffsetOf2(5, 9, 10, 20);
  }

  /** The values demo.cpp prints for ndindex (section 14). */
  lemma DemoIndices()
    ensures NdIndexOf(IndexSpace([0, 0], [10, 20]), 43) == [2, 3]
    ensures NdIndexOf(IndexSpace([2, 4], [10, 20]), 109) == [7, 13]
  {
    var sh: seq<int> := [10, 20];
    assert sh[..1] == [10] && [10][..0] == [];
    assert Digits([10], 2) == [2];
    assert Digits([10], 5) == [5];
    assert Digits(sh, 43) == [2, 3];
    assert Digits(sh, 109) == [5, 9];
  }
}
