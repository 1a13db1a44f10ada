/** Flat buffers addressed through an index space (mist.hpp): scalar and
    struct-of-arrays reads and writes, the index-space iterator and the
    serial (cpu) branch of for_each. A C++ `T*` buffer is an `array<T>`
    whose first size(space) (or N * size(space)) cells the caller owns. */
module Buffers {
  import opened Vec
  import opened Indexing

  // ---------------------------------------------------------------------
  // Specification functions on buffer contents
  // ---------------------------------------------------------------------

  /** The buffer is large enough for n components of every cell. */
  predicate Fits(space: IndexSpace, n: nat, len: nat)
  {
    n * SizeOf(space) <= len
  }

  /** The cell ndread returns. */
  function ReadAt<T>(buf: seq<T>, space: IndexSpace, idx: seq<int>): T
    requires space.Valid() && |idx| == |space.start| && InSpace(space, idx)
    requires SizeOf(space) <= |buf|
  {
    NdOffsetBelowSize(space, idx);
    buf[NdOffsetOf(space, idx)]
  }

  /** The buffer after ndwrite. */
  function WriteAt<T>(buf: seq<T>, space: IndexSpace, idx: seq<int>, v: T): (r: seq<T>)
    requires space.Valid() && |idx| == |space.start| && InSpace(space, idx)
    requires SizeOf(space) <= |buf|
    ensures |r| == |buf|
  {
    NdOffsetBelowSize(space, idx);
    buf[NdOffsetOf(space, idx) := v]
  }

  /** Where component c of the cell idx lives in a struct-of-arrays
      buffer: c * size(space) + ndoffset(space, idx). */
  function SoaCell(space: IndexSpace, idx: seq<int>, c: nat): int
    requires space.Valid() && |idx| == |space.start|
  {
    c * SizeOf(space) + NdOffsetOf(space, idx)
  }

  /** The n components ndread_soa returns. */
  function ReadSoa(buf: seq<int>, space: IndexSpace, idx: seq<int>, n: nat): (r: seq<int>)
    requires space.Valid() && |idx| == |space.start| && InSpace(space, idx)
    requires Fits(space, n, |buf|)
  {
    seq(n, c requires 0 <= c < n => (SoaCellInRange(space, idx, c, n); buf[SoaCell(space, idx, c)]))
  }

  /** The buffer after ndwrite_soa of v: a cell k belongs to cell idx
      exactly when k mod size(space) is idx's offset, and then holds
      component k div size(space). */
  function WriteSoa(buf: seq<int>, space: IndexSpace, idx: seq<int>, v: seq<int>): (r: seq<int>)
    requires space.Valid() && |idx| == |space.start| && InSpace(space, idx)
    ensures |r| == |buf|
  {
    NdOffsetBelowSize(space, idx);
    var size := SizeOf(space);
    var off := NdOffsetOf(space, idx);
    seq(|buf|, k requires 0 <= k < |buf| =>
      if k % size == off && k / size < |v| then v[k / size] else buf[k])
  }

  /** The indices a traversal of the space visits, in order. */
  function Visits(space: IndexSpace): (r: seq<seq<int>>)
    requires space.Valid()
    ensures |r| == SizeOf(space)
  {
    ProductOfNaturals(space.shape);
    seq(SizeOf(space), n requires 0 <= n < SizeOf(space) => (NdOffsetOfNdIndex(space, n); NdIndexOf(space, n)))
  }

  /** Cell c of a layout with the given stride and an offset below it. */
  lemma CellArith(c: nat, n: nat, stride: int, off: int)
    requires 0 <= off < stride && c < n
    ensures 0 <= c * stride + off < n * stride
    ensures (c * stride + off) % stride == off && (c * stride + off) / stride == c
  {
    DivModOf(c, stride, off);
    MulAtMost(0, c, stride);
    MulAtMost(c + 1, n, stride);
    assert (c + 1) * stride == c * stride + stride;
  }

  lemma {:induction false} MulAtMost(a: nat, b: nat, k: nat)
    requires a <= b
    ensures a * k <= b * k
    decreases b - a
  {
    if a < b {
      MulAtMost(a + 1, b, k);
      assert (a + 1) * k == a * k + k;
    }
  }

  lemma SoaCellInRange(space: IndexSpace, idx: seq<int>, c: nat, n: nat)
    requires space.Valid() && |idx| == |space.start| && InSpace(space, idx)
    requires c < n
    ensures 0 <= NdOffsetOf(space, idx) < SizeOf(space)
    ensures 0 <= SoaCell(space, idx, c) < n * SizeOf(space)
    ensures SoaCell(space, idx, c) % SizeOf(space) == NdOffsetOf(space, idx)
    ensures SoaCell(space, idx, c) / SizeOf(space) == c
  {
    NdOffsetBelowSize(space, idx);
    CellArith(c, n, SizeOf(space), NdOffsetOf(space, idx));
  }

  // ---------------------------------------------------------------------
  // The buffer functions of mist.hpp
  // ---------------------------------------------------------------------

  /** ndread(data, space, index) */
  method NdRead<T>(data: array<T>, space: IndexSpace, idx: seq<int>) returns (v: T)
    requires space.Valid() && |idx| == |space.start| && InSpace(space, idx)
    requires SizeOf(space) <= data.Length
    ensures v == ReadAt(data[..], space, idx)
  {
    NdOffsetBelowSize(space, idx);
    var offset := NdOffset(space, idx);
    v := data[offset];
  }

  /** ndwrite(data, space, index, value) */
  method NdWrite<T>(data: array<T>, space: IndexSpace, idx: seq<int>, v: T)
    requires space.Valid() && |idx| == |space.start| && InSpace(space, idx)
    requires SizeOf(space) <= data.Length
    modifies data
    ensures data[..] == WriteAt(old(data[..]), space, idx, v)
  {
    NdOffsetBelowSize(space, idx);
    var offset := NdOffset(space, idx);
    data[offset] := v;
  }

  /** ndread_soa<T, N>(data, space, index) with N = n components. */
  method NdReadSoa(data: array<int>, space: IndexSpace, idx: seq<int>, n: nat) returns (r: seq<int>)
    requires space.Valid() && |idx| == |space.start| && InSpace(space, idx)
    requires n > 0 && Fits(space, n, data.Length)
    ensures r == ReadSoa(data[..], space, idx, n)
  {
    r := seq(n, _ => 0);
    var offset := NdOffset(space, idx);
    var stride := Size(space);
    for i := 0 to n
      invariant |r| == n
      invariant forall c :: 0 <= c < i ==> r[c] == ReadSoa(data[..], space, idx, n)[c]
    {
      SoaCellInRange(space, idx, i, n);
      r := r[i := data[i * stride + offset]];
    }
  }

  /** ndwrite_soa<T, N>(data, space, index, value) with N = |v|. */
  method NdWriteSoa(data: array<int>, space: IndexSpace, idx: seq<int>, v: seq<int>)
    requires space.Valid() && |idx| == |space.start| && InSpace(space, idx)
    requires |v| > 0 && Fits(space, |v|, data.Length)
    modifies data
    ensures data[..] == WriteSoa(old(data[..]), space, idx, v)
  {
    var offset := NdOffset(space, idx);
    var stride := Size(space);
    NdOffsetBelowSize(space, idx);
    ghost var before := data[..];
    for i := 0 to |v|
      invariant data.Length == |before|
      invariant forall k :: 0 <= k < data.Length ==>
                  data[k] == if k % stride == offset && k / stride < i then v[k / stride] else before[k]
    {
      SoaCellInRange(space, idx, i, |v|);
      var p := i * stride + offset;
      forall k | 0 <= k < data.Length && k != p && k % stride == offset
        ensures k / stride != i
      {
        assert k == (k / stride) * stride + k % stride;
      }
      data[p] := v[i];
    }
    assert data[..] == WriteSoa(before, space, idx, v);
  }

  // ---------------------------------------------------------------------
  // Read-after-write properties
  // ---------------------------------------------------------------------

  /** ndwrite then ndread at the same index returns the written value;
      at any other contained index the old value is read, and exactly
      one cell of the buffer changes. */
  lemma ReadAfterWrite<T>(buf: seq<T>, space: IndexSpace, i: seq<int>, j: seq<int>, v: T)
    requires space.Valid() && |i| == |space.start| && |j| == |space.start|
    requires InSpace(space, i) && InSpace(space, j)
    requires SizeOf(space) <= |buf|
    ensures ReadAt(WriteAt(buf, space, i, v), space, j) == if i == j then v else ReadAt(buf, space, j)
    ensures |WriteAt(buf, space, i, v)| == |buf|
    ensures forall k :: 0 <= k < |buf| && k != NdOffsetOf(space, i) ==> WriteAt(buf, space, i, v)[k] == buf[k]
  {
    NdOffsetBelowSize(space, i);
    NdOffsetBelowSize(space, j);
    if i != j {
      if NdOffsetOf(space, i) == NdOffsetOf(space, j) {
        NdOffsetInjective(space, i, j);
      }
    }
  }

  /** ndwrite_soa then ndread_soa at the same index returns the vector. */
  lemma SoaReadAfterWrite(buf: seq<int>, space: IndexSpace, idx: seq<int>, v: seq<int>)
    requires space.Valid() && |idx| == |space.start| && InSpace(space, idx)
    requires Fits(space, |v|, |buf|)
    ensures ReadSoa(WriteSoa(buf, space, idx, v), space, idx, |v|) == v
  {
    forall c | 0 <= c < |v|
      ensures ReadSoa(WriteSoa(buf, space, idx, v), space, idx, |v|)[c] == v[c]
    {
      SoaCellInRange(space, idx, c, |v|);
    }
  }

  /** ndwrite_soa at one index leaves the vector stored at every other
      contained index unchanged. */
  lemma SoaWriteFrame(buf: seq<int>, space: IndexSpace, i: seq<int>, j: seq<int>, v: seq<int>, n: nat)
    requires space.Valid() && |i| == |space.start| && |j| == |space.start|
    requires InSpace(space, i) && InSpace(space, j) && i != j
    requires Fits(space, n, |buf|)
    ensures ReadSoa(WriteSoa(buf, space, i, v), space, j, n) == ReadSoa(buf, space, j, n)
  {
    if NdOffsetOf(space, i) == NdOffsetOf(space, j) {
      NdOffsetInjective(space, i, j);
    }
    forall c | 0 <= c < n
      ensures ReadSoa(WriteSoa(buf, space, i, v), space, j, n)[c] == ReadSoa(buf, space, j, n)[c]
    {
      SoaCellInRange(space, j, c, n);
    }
  }

  /** ndwrite_soa of an N-vector touches exactly N distinct cells:
      component c goes to SoaCell(c), distinct components go to distinct
      cells, and every other cell keeps its value. */
  lemma SoaWriteTouchesN(buf: seq<int>, space: IndexSpace, idx: seq<int>, v: seq<int>)
    requires space.Valid() && |idx| == |space.start| && InSpace(space, idx)
    requires Fits(space, |v|, |buf|)
    ensures forall c :: 0 <= c < |v| ==>
              0 <= SoaCell(space, idx, c) < |buf| && WriteSoa(buf, space, idx, v)[SoaCell(space, idx, c)] == v[c]
    ensures forall c, c' :: 0 <= c < c' < |v| ==> SoaCell(space, idx, c) < SoaCell(space, idx, c')
    ensures forall k :: 0 <= k < |buf| && (forall c :: 0 <= c < |v| ==> k != SoaCell(space, idx, c)) ==>
              WriteSoa(buf, space, idx, v)[k] == buf[k]
  {
    forall c | 0 <= c < |v|
      ensures 0 <= SoaCell(space, idx, c) < |buf| && WriteSoa(buf, space, idx, v)[SoaCell(space, idx, c)] == v[c]
    {
      SoaCellInRange(space, idx, c, |v|);
    }
    forall c, c' | 0 <= c < c' < |v|
      ensures SoaCell(space, idx, c) < SoaCell(space, idx, c')
    {
      SoaCellInRange(space, idx, c, |v|);
      SoaCellInRange(space, idx, c', |v|);
    }
    forall k | 0 <= k < |buf| && (forall c :: 0 <= c < |v| ==> k != SoaCell(space, idx, c))
      ensures WriteSoa(buf, space, idx, v)[k] == buf[k]
    {
      SoaWriteOutside(buf, space, idx, v, k);
    }
  }

  /** A cell that is no component's SoaCell keeps its value. */
  lemma SoaWriteOutside(buf: seq<int>, space: IndexSpace, idx: seq<int>, v: seq<int>, k: int)
    requires space.Valid() && |idx| == |space.start| && InSpace(space, idx)
    requires 0 <= k < |buf|
    requires forall c :: 0 <= c < |v| ==> k != SoaCell(space, idx, c)
    ensures WriteSoa(buf, space, idx, v)[k] == buf[k]
  {
    NdOffsetBelowSize(space, idx);
    var size := SizeOf(space);
    var q := k / size;
    assert k == q * size + k % size;
    if q < |v| {
      assert k != SoaCell(space, idx, q);
    }
  }

  /** The demo's SoA writes (section 16): three 3-vectors at three
      distinct cells of a 10x20 space are all read back. */
  lemma DemoSoa(buf: seq<int>)
    requires |buf| == 3 * SizeOf(IndexSpace([0, 0], [10, 20]))
    ensures var space := IndexSpace([0, 0], [10, 20]);
            var b1 := WriteSoa(buf, space, [0, 0], [1, 2, 3]);
            var b2 := WriteSoa(b1, space, [1, 1], [4, 5, 6]);
            var b3 := WriteSoa(b2, space, [2, 2], [7, 8, 9]);
            ReadSoa(b3, space, [0, 0], 3) == [1, 2, 3] && ReadSoa(b3, space, [2, 2], 3) == [7, 8, 9]
  {
    var space := IndexSpace([0, 0], [10, 20]);
    var b1 := WriteSoa(buf, space, [0, 0], [1, 2, 3]);
    var b2 := WriteSoa(b1, space, [1, 1], [4, 5, 6]);
    var b3 := WriteSoa(b2, space, [2, 2], [7, 8, 9]);
    SoaReadAfterWrite(b2, space, [2, 2], [7, 8, 9]);
    SoaReadAfterWrite(buf, space, [0, 0], [1, 2, 3]);
    SoaWriteFrame(b1, space, [1, 1], [0, 0], [4, 5, 6], 3);
    SoaWriteFrame(b2, space, [2, 2], [0, 0], [7, 8, 9], 3);
  }

  // ---------------------------------------------------------------------
  // Traversal
  // ---------------------------------------------------------------------

  /** A traversal visits every contained index exactly once: each visit is
      contained, no two visits coincide, and every contained index is
      visited (at the position of its offset). */
  lemma VisitsEachOnce(space: IndexSpace)
    requires space.Valid()
    ensures forall n :: 0 <= n < |Visits(space)| ==>
              |Visits(space)[n]| == |space.start| && InSpace(space, Visits(space)[n])
    ensures forall n, m :: 0 <= n < m < |Visits(space)| ==> Visits(space)[n] != Visits(space)[m]
    ensures forall idx :: |idx| == |space.start| && InSpace(space, idx) ==>
              0 <= NdOffsetOf(space, idx) < |Visits(space)| && Visits(space)[NdOffsetOf(space, idx)] == idx
  {
    var vs := Visits(space);
    forall n | 0 <= n < |vs|
      ensures |vs[n]| == |space.start| && InSpace(space, vs[n]) && NdOffsetOf(space, vs[n]) == n
    {
      NdOffsetOfNdIndex(space, n);
    }
    forall idx | |idx| == |space.start| && InSpace(space, idx)
      ensures 0 <= NdOffsetOf(space, idx) < |vs| && vs[NdOffsetOf(space, idx)] == idx
    {
      NdOffsetBelowSize(space, idx);
      NdIndexOfNdOffset(space, idx);
    }
  }

  /** index_space_iterator: a cursor over the flat offsets of a space;
      dereferencing converts the offset with ndindex. */
  class IndexSpaceIterator {
    const space: IndexSpace
    var offset: nat

    constructor (space: IndexSpace, offset: nat)
      ensures this.space == space && this.offset == offset
    {
      this.space := space;
      this.offset := offset;
    }

    /** operator* */
    method Get() returns (idx: seq<int>)
      requires space.Valid()
      requires forall i :: 0 <= i < |space.shape| ==> space.shape[i] > 0
      ensures idx == NdIndexOf(space, offset)
    {
      idx := NdIndex(space, offset);
    }

    /** operator++ */
    method Increment()
      modifies this
      ensures offset == old(offset) + 1
    {
      offset := offset + 1;
    }

    /** operator== compares offsets only. */
    predicate Equals(other: IndexSpaceIterator)
      reads this, other
    {
      offset == other.offset
    }
  }

  /** begin(space) */
  method Begin(space: IndexSpace) returns (it: IndexSpaceIterator)
    ensures fresh(it) && it.space == space && it.offset == 0
  {
    it := new IndexSpaceIterator(space, 0);
  }

  /** end(space) */
  method End(space: IndexSpace) returns (it: IndexSpaceIterator)
    requires space.Valid()
    ensures fresh(it) && it.space == space && it.offset == SizeOf(space)
  {
    ProductOfNaturals(space.shape);
    var size := Size(space);
    it := new IndexSpaceIterator(space, size);
  }

  /** A range-based for over the space (`for (auto index : space)`),
      driving the iterator from begin to end; the result is the sequence
      of indices the loop body receives. */
  method IterateSpace(space: IndexSpace) returns (visited: seq<seq<int>>)
    requires space.Valid()
    ensures visited == Visits(space)
  {
    var it := Begin(space);
    var last := End(space);
    visited := [];
    ProductOfNaturals(space.shape);
    while !it.Equals(last)
      invariant it.space == space && last.offset == SizeOf(space)
      invariant it.offset <= SizeOf(space) && |visited| == it.offset
      invariant forall n :: 0 <= n < it.offset ==> visited[n] == Visits(space)[n]
      decreases SizeOf(space) - it.offset
    {
      var idx := it.Get();
      visited := visited + [idx];
      it.Increment();
    }
  }

  /** The cpu branch of for_each(space, func): calls func on
      ndindex(space, n) for n = 0 .. size(space) - 1; the result is the
      sequence of arguments func receives. */
  method ForEach(space: IndexSpace) returns (visited: seq<seq<int>>)
    requires space.Valid()
    ensures visited == Visits(space)
  {
    var size := Size(space);
    ProductOfNaturals(space.shape);
    visited := [];
    for n := 0 to size
      invariant |visited| == n
      invariant forall m :: 0 <= m < n ==> visited[m] == Visits(space)[m]
    {
      var idx := NdIndex(space, n);
      visited := visited + [idx];
    }
  }
}
