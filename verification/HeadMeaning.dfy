/**
 What the merged projection means. A quantised matrix is a sequence of blocks of 34 bytes for 32 elements;
 a dequantiser maps a block and a position in it to a weight. Nothing else is assumed of it.
 Arithmetic is exact: rounding in the kernels is not the converter's business.
 */
module HeadMeaning {
  import opened Helpers
  import opened Gguf
  import opened Placement
  import opened HeadConversion

  type Dequantiser = (Bytes, nat) -> real

  function BlockAt(data: Bytes, b: nat): Bytes { Slice(data, b * 34, 34) }

  /** Element i of the matrix, counted along its rows. */
  function Weight(dq: Dequantiser, data: Bytes, i: nat): real {
    dq(BlockAt(data, i / 32), i % 32)
  }

  /** Row r of a matrix with rows of k elements. */
  function Row(dq: Dequantiser, data: Bytes, k: nat, r: nat): (row: seq<real>)
    ensures |row| == k
  {
    seq(k, j requires 0 <= j < k => Weight(dq, data, r * k + j))
  }

  function Dot(a: seq<real>, x: seq<real>): real
    requires |a| == |x|
  {
    if a == [] then 0.0 else a[0] * x[0] + Dot(a[1..], x[1..])
  }

  /** The size of one projection, and of each of its rows as the script divides it. */
  function ProjectionBytes(k: nat, m: nat): nat { TensorBytes([k, m], Q8_0) }

  lemma {:induction false} DotConcat(a: seq<real>, x: seq<real>, b: seq<real>, y: seq<real>)
    requires |a| == |x| && |b| == |y|
    ensures Dot(a + b, x + y) == Dot(a, x) + Dot(b, y)
  {
    if a == [] {
      assert a + b == b && x + y == y;
    } else {
      DotConcat(a[1..], x[1..], b, y);
      assert (a + b)[1..] == a[1..] + b && (x + y)[1..] == x[1..] + y;
    }
  }

  // ---- where the rows lie

  lemma MulMono(a: nat, b: nat, c: nat)
    requires a <= b
    ensures a * c <= b * c
  {}

  function RowPair(eb: Bytes, hb: Bytes, rb: nat, rb2: nat, r: nat): Bytes {
    Slice(eb, r * rb, rb) + Slice(hb, r * rb2, rb2)
  }

  lemma RowPairLength(eb: Bytes, hb: Bytes, rb: nat, rb2: nat, m: nat, r: nat)
    requires r < m && m * rb <= |eb| && m * rb2 <= |hb|
    ensures |RowPair(eb, hb, rb, rb2, r)| == rb + rb2
  {
    RowLength(eb, rb, m, r);
    RowLength(hb, rb2, m, r);
  }

  lemma RowLength(data: Bytes, w: nat, m: nat, r: nat)
    requires r < m && m * w <= |data|
    ensures |Slice(data, r * w, w)| == w
  {
    RowWithin(m, r, w, |data|);
    SliceWholeIff(data, r * w, w);
  }

  lemma MergeStep(eb: Bytes, hb: Bytes, rb: nat, rb2: nat, m: nat)
    requires m > 0
    ensures Merge(eb, hb, rb, rb2, m) == Merge(eb, hb, rb, rb2, m - 1) + RowPair(eb, hb, rb, rb2, m - 1)
  {
    Concat3(Merge(eb, hb, rb, rb2, m - 1), Slice(eb, (m - 1) * rb, rb), Slice(hb, (m - 1) * rb2, rb2));
  }

  lemma {:induction false} MergePrefix(eb: Bytes, hb: Bytes, rb: nat, rb2: nat, m: nat, r: nat)
    requires r <= m
    ensures Merge(eb, hb, rb, rb2, r) <= Merge(eb, hb, rb, rb2, m)
  {
    if r < m {
      MergePrefix(eb, hb, rb, rb2, m - 1, r);
    }
  }

  lemma MergeRowAt(eb: Bytes, hb: Bytes, rb: nat, rb2: nat, m: nat, r: nat, at: nat, w: nat)
    requires r < m && |Merge(eb, hb, rb, rb2, r)| == at && |RowPair(eb, hb, rb, rb2, r)| == w
    ensures Slice(Merge(eb, hb, rb, rb2, m), at, w) == RowPair(eb, hb, rb, rb2, r)
  {
    MergeStep(eb, hb, rb, rb2, r + 1);
    MergePrefix(eb, hb, rb, rb2, m, r + 1);
    SliceWithinPrefix(Merge(eb, hb, rb, rb2, r), RowPair(eb, hb, rb, rb2, r), Merge(eb, hb, rb, rb2, m));
  }

  /** Row r of the merge is row r of the one projection and then row r of the other. */
  lemma MergeRow(eb: Bytes, hb: Bytes, rb: nat, rb2: nat, m: nat, r: nat)
    requires r < m && m * rb <= |eb| && m * rb2 <= |hb|
    ensures Slice(Merge(eb, hb, rb, rb2, m), r * (rb + rb2), rb + rb2) == RowPair(eb, hb, rb, rb2, r)
  {
    MulMono(r, m, rb);
    MulMono(r, m, rb2);
    MergeLength(eb, hb, rb, rb2, r);
    RowPairLength(eb, hb, rb, rb2, m, r);
    MergeRowAt(eb, hb, rb, rb2, m, r, r * (rb + rb2), rb + rb2);
  }

  lemma RowWithin(m: nat, r: nat, w: nat, n: nat)
    requires r < m && m * w <= n
    ensures r * w + w <= n
  {
    MulMono(r + 1, m, w);
  }

  lemma {:induction false} MergeLength(eb: Bytes, hb: Bytes, rb: nat, rb2: nat, m: nat)
    requires m * rb <= |eb| && m * rb2 <= |hb|
    ensures |Merge(eb, hb, rb, rb2, m)| == m * (rb + rb2)
  {
    if m > 0 {
      MulMono(m - 1, m, rb);
      MulMono(m - 1, m, rb2);
      MergeLength(eb, hb, rb, rb2, m - 1);
      MergeStep(eb, hb, rb, rb2, m);
      RowPairLength(eb, hb, rb, rb2, m, m - 1);
      AddOne(m, rb + rb2);
    }
  }

  lemma AddOne(m: nat, w: nat)
    requires m > 0
    ensures (m - 1) * w + w == m * w
  {}

  lemma Regroup(r: nat, c: nat, q: nat)
    ensures r * (c * q) == c * (r * q)
  {}

  // ---- blocks of the merge are blocks of the projections

  lemma Scale(c: nat, q: nat, m: nat)
    ensures c * q * m == c * (q * m)
  {}

  lemma WholeBlockCount(t: nat)
    ensures BlockBytes(32 * t, BlockOf(Q8_0).value) == 34 * t
  {
    assert (32 * t + 31) / 32 == t;
  }

  lemma WholeBlocks(q: nat, m: nat)
    requires m > 0
    ensures ProjectionBytes(32 * q, m) == 34 * q * m
    ensures RowBytes(ProjectionBytes(32 * q, m), m) == 34 * q
    ensures ProjectionBytes(32 * q * 2, m) == 2 * ProjectionBytes(32 * q, m)
  {
    var t := q * m;
    ProductOfTwo(32 * q, m);
    ProductOfTwo(64 * q, m);
    Scale(32, q, m);
    Scale(64, q, m);
    Scale(34, q, m);
    WholeBlockCount(t);
    WholeBlockCount(2 * t);
    QuotientUnique(34 * t, m, 34 * q, 0);
  }

  lemma ProductOfTwo(k: nat, m: nat)
    ensures Product([k, m]) == k * m
  {
    assert [k, m][..1] == [k] && [k][..0] == [];
    assert Product([k]) == k;
  }

  /** Row r of the merge holds row r of fc_embd and then row r of fc_hidden, of w bytes each. */
  lemma MergedRowBytes(eb: Bytes, hb: Bytes, w: nat, w2: nat, m: nat, r: nat)
    requires r < m && w2 == w + w && |eb| == w * m && |hb| == w * m
    ensures var merged := Merge(eb, hb, w, w, m);
            && r * w + w <= |eb| && r * w + w <= |hb| && r * w2 + w2 <= |merged|
            && Slice(merged, r * w2, w2) == Slice(eb, r * w, w) + Slice(hb, r * w, w)
  {
    assert m * w == w * m;
    MergeLength(eb, hb, w, w, m);
    MergeRow(eb, hb, w, w, m, r);
    RowWithin(m, r, w, |eb|);
    RowWithin(m, r, w2, |Merge(eb, hb, w, w, m)|);
  }

  /** The same in blocks: row r starts at block at of the merge and at block off of the projections. */
  lemma MergedRowInBlocks(eb: Bytes, hb: Bytes, q: nat, q2: nat, m: nat, r: nat, at: nat, off: nat)
    requires q2 == 2 * q && r < m && |eb| == 34 * q * m && |hb| == 34 * q * m && at == r * q2 && off == r * q
    ensures var merged := Merge(eb, hb, 34 * q, 34 * q, m);
            && 34 * (off + q) <= |eb| && 34 * (off + q) <= |hb| && 34 * (at + q2) <= |merged|
            && Slice(merged, 34 * at, 34 * q2) == Slice(eb, 34 * off, 34 * q) + Slice(hb, 34 * off, 34 * q)
  {
    MergedRowBytes(eb, hb, 34 * q, 34 * q2, m, r);
    Regroup(r, 34, q);
    Regroup(r, 34, q2);
  }

  /** A row that starts at block at and joins two rows that start at block off consists of their blocks. */
  lemma BlocksOfJoin(merged: Bytes, at: nat, eb: Bytes, hb: Bytes, off: nat, q: nat, q2: nat, b: nat)
    requires q2 == 2 * q && b < q
    requires 34 * (off + q) <= |eb| && 34 * (off + q) <= |hb| && 34 * (at + q2) <= |merged|
    requires Slice(merged, 34 * at, 34 * q2) == Slice(eb, 34 * off, 34 * q) + Slice(hb, 34 * off, 34 * q)
    ensures BlockAt(merged, at + b) == BlockAt(eb, off + b)
    ensures BlockAt(merged, at + (q + b)) == BlockAt(hb, off + b)
  {
    PartsOfJoin(merged, 34 * at, eb, hb, 34 * off, 34 * q, 34 * q2, 34 * b);
  }

  lemma PartsOfJoin(merged: Bytes, at: nat, eb: Bytes, hb: Bytes, off: nat, w: nat, w2: nat, i: nat)
    requires w2 == w + w && off + w <= |eb| && off + w <= |hb| && at + w2 <= |merged| && i + 34 <= w
    requires Slice(merged, at, w2) == Slice(eb, off, w) + Slice(hb, off, w)
    ensures Slice(merged, at + i, 34) == Slice(eb, off + i, 34)
    ensures Slice(merged, at + (w + i), 34) == Slice(hb, off + i, 34)
  {
    SliceOfSlice(merged, at, w2, i, 34);
    SliceOfSlice(merged, at, w2, w + i, 34);
    SliceOfSlice(eb, off, w, i, 34);
    SliceOfSlice(hb, off, w, i, 34);
    SliceOfConcat(Slice(eb, off, w), Slice(hb, off, w), w, i);
  }

  lemma SliceOfConcat(a: Bytes, b: Bytes, w: nat, i: nat)
    requires |a| == w && |b| == w && i + 34 <= w
    ensures Slice(a + b, i, 34) == Slice(a, i, 34) && Slice(a + b, w + i, 34) == Slice(b, i, 34)
  {}

  lemma FlatIndex(k: nat, q: nat, r: nat, j: nat)
    requires k == 32 * q
    ensures (r * k + j) / 32 == r * q + j / 32 && (r * k + j) % 32 == j % 32
  {
    Regroup(r, 32, q);
  }

  lemma RowAt(dq: Dequantiser, data: Bytes, k: nat, r: nat, j: nat)
    requires j < k
    ensures Row(dq, data, k, r)[j] == Weight(dq, data, r * k + j)
  {}

  lemma WeightsOfJoin(dq: Dequantiser, merged: Bytes, at: nat, eb: Bytes, hb: Bytes, off: nat, q: nat, q2: nat, j: nat)
    requires q2 == 2 * q && j < 32 * q
    requires 34 * (off + q) <= |eb| && 34 * (off + q) <= |hb| && 34 * (at + q2) <= |merged|
    requires Slice(merged, 34 * at, 34 * q2) == Slice(eb, 34 * off, 34 * q) + Slice(hb, 34 * off, 34 * q)
    ensures dq(BlockAt(merged, at + j / 32), j % 32) == dq(BlockAt(eb, off + j / 32), j % 32)
    ensures dq(BlockAt(merged, at + (32 * q + j) / 32), (32 * q + j) % 32) == dq(BlockAt(hb, off + j / 32), j % 32)
  {
    BlocksOfJoin(merged, at, eb, hb, off, q, q2, j / 32);
    NextHalf(q, j);
  }

  /** Element j of a row that starts at block start. */
  lemma WeightInRow(dq: Dequantiser, data: Bytes, k: nat, q: nat, r: nat, start: nat, j: nat)
    requires k == 32 * q && start == r * q && j < k
    ensures Row(dq, data, k, r)[j] == dq(BlockAt(data, start + j / 32), j % 32)
  {
    FlatIndex(k, q, r, j);
    RowAt(dq, data, k, r, j);
  }

  lemma NextHalf(q: nat, j: nat)
    ensures (32 * q + j) / 32 == q + j / 32 && (32 * q + j) % 32 == j % 32
  {}

  /** With whole blocks to the row, row r of the merged matrix is row r of fc_embd followed by row r of fc_hidden. */
  lemma MergedRows(dq: Dequantiser, eb: Bytes, hb: Bytes, q: nat, m: nat, r: nat)
    requires r < m && |eb| == 34 * q * m && |hb| == 34 * q * m
    ensures Row(dq, Merge(eb, hb, 34 * q, 34 * q, m), 32 * q * 2, r) == Row(dq, eb, 32 * q, r) + Row(dq, hb, 32 * q, r)
  {
    var merged := Merge(eb, hb, 34 * q, 34 * q, m);
    MergedRowInBlocks(eb, hb, q, 2 * q, m, r, r * (2 * q), r * q);
    JoinedRows(dq, merged, eb, hb, 32 * q, q, 2 * q, r, r * (2 * q), r * q);
  }

  /** Rows whose blocks are joined are joined. */
  lemma JoinedRows(dq: Dequantiser, merged: Bytes, eb: Bytes, hb: Bytes, k: nat, q: nat, q2: nat, r: nat, at: nat,
      off: nat)
    requires k == 32 * q && q2 == 2 * q && at == r * q2 && off == r * q
    requires 34 * (off + q) <= |eb| && 34 * (off + q) <= |hb| && 34 * (at + q2) <= |merged|
    requires Slice(merged, 34 * at, 34 * q2) == Slice(eb, 34 * off, 34 * q) + Slice(hb, 34 * off, 34 * q)
    ensures Row(dq, merged, k * 2, r) == Row(dq, eb, k, r) + Row(dq, hb, k, r)
  {
    var row, left, right := Row(dq, merged, k * 2, r), Row(dq, eb, k, r), Row(dq, hb, k, r);
    forall j | 0 <= j < k ensures row[j] == left[j] && row[k + j] == right[j] {
      WeightsOfJoin(dq, merged, at, eb, hb, off, q, q2, j);
      WeightInRow(dq, merged, k * 2, q2, r, at, j);
      WeightInRow(dq, merged, k * 2, q2, r, at, k + j);
      WeightInRow(dq, eb, k, q, r, off, j);
      WeightInRow(dq, hb, k, q, r, off, j);
    }
    Halves(row, left, right, k);
  }

  lemma Halves(row: seq<real>, left: seq<real>, right: seq<real>, k: nat)
    requires |row| == 2 * k && |left| == k && |right| == k
    requires forall j :: 0 <= j < k ==> row[j] == left[j] && row[k + j] == right[j]
    ensures row == left + right
  {
    forall j | 0 <= j < 2 * k ensures row[j] == (left + right)[j] {
      if j >= k {
        assert row[k + (j - k)] == right[j - k];
      }
    }
  }

  // ---- the main claim, and where it stops

  /** eh_proj applied to the concatenation is the sum of the two projections: for every dequantiser, every pair
      of matrices whose rows are whole blocks, every input and every row. */
  lemma MergedMeaning(dq: Dequantiser, eb: Bytes, hb: Bytes, k: nat, m: nat, e: seq<real>, h: seq<real>, r: nat)
    requires k % 32 == 0 && r < m && |eb| == ProjectionBytes(k, m) && |hb| == ProjectionBytes(k, m)
    requires |e| == k && |h| == k
    ensures var rb := RowBytes(ProjectionBytes(k, m), m);
            Dot(Row(dq, Merge(eb, hb, rb, rb, m), k * 2, r), e + h)
                == Dot(Row(dq, eb, k, r), e) + Dot(Row(dq, hb, k, r), h)
  {
    var q := k / 32;
    WholeBlocks(q, m);
    MergedRows(dq, eb, hb, q, m, r);
    DotConcat(Row(dq, eb, k, r), e, Row(dq, hb, k, r), h);
  }

  function Unit(n: nat, i: nat): (x: seq<real>)
    ensures |x| == n
  {
    seq(n, j requires 0 <= j < n => if j == i then 1.0 else 0.0)
  }

  lemma {:induction false} DotZero(a: seq<real>, x: seq<real>)
    requires |a| == |x| && forall j :: 0 <= j < |x| ==> x[j] == 0.0
    ensures Dot(a, x) == 0.0
  {
    if a != [] {
      DotZero(a[1..], x[1..]);
    }
  }

  lemma {:induction false} DotUnit(a: seq<real>, x: seq<real>, i: nat)
    requires i < |a| == |x| && forall j :: 0 <= j < |x| ==> x[j] == if j == i then 1.0 else 0.0
    ensures Dot(a, x) == a[i]
  {
    if i == 0 {
      DotZero(a[1..], x[1..]);
    } else {
      DotUnit(a[1..], x[1..], i - 1);
    }
  }

  /** A dequantiser that reads a block's first byte only. */
  function FirstByte(block: Bytes, j: nat): real {
    if block == [] then 0.0 else block[0] as real
  }

  function Filled(n: nat, b: byte): (r: Bytes)
    ensures |r| == n
  {
    seq(n, i => b)
  }

  lemma FilledWeight(n: nat, b: byte, i: nat)
    requires i / 32 * 34 < n
    ensures Weight(FirstByte, Filled(n, b), i) == b as real
  {}

  lemma SizeCovers(k: nat, m: nat)
    requires k > 0 && m > 0
    ensures (k - 1) / 32 * 34 < ProjectionBytes(k, m) && 0 < ProjectionBytes(k, m)
  {
    ProductOfTwo(k, m);
    MulMono(1, m, k);
    var n := k * m;
    assert m * k == n && n >= k;
    assert (k - 1) / 32 < (n + 31) / 32;
  }

  /** A row whose two middle elements agree cannot serve a left half ending in 0 and a right half starting with 1. */
  lemma TwoUnits(row: seq<real>, left: seq<real>, right: seq<real>) returns (e: seq<real>, h: seq<real>)
    requires |left| == |right| > 0 && |row| == |left| + |right|
    requires row[|left| - 1] == row[|left|] && left[|left| - 1] == 0.0 && right[0] == 1.0
    ensures |e| == |left| && |h| == |right| && Dot(row, e + h) != Dot(left, e) + Dot(right, h)
  {
    var k := |left|;
    if row[k] != 1.0 {
      e, h := Unit(k, k), Unit(k, 0);
      DotUnit(row, e + h, k);
      DotZero(left, e);
      DotUnit(right, h, 0);
    } else {
      e, h := Unit(k, k - 1), Unit(k, k);
      DotUnit(row, e + h, k - 1);
      DotUnit(left, e, k - 1);
      DotZero(right, h);
    }
  }

  /** The condition is necessary: if the last block of a row is shared with the next row, the script's merge of an
      all-zero and an all-one matrix gives a wrong first output for some input. */
  lemma SplitBlocksBreakMeaning(k: nat, m: nat) returns (e: seq<real>, h: seq<real>)
    requires k % 32 != 0 && m > 0
    ensures |e| == k && |h| == k
    ensures var n := ProjectionBytes(k, m);
            var rb, zeros, ones := RowBytes(n, m), Filled(n, 0), Filled(n, 1);
            Dot(Row(FirstByte, Merge(zeros, ones, rb, rb, m), k * 2, 0), e + h)
              != Dot(Row(FirstByte, zeros, k, 0), e) + Dot(Row(FirstByte, ones, k, 0), h)
  {
    var n := ProjectionBytes(k, m);
    var rb, zeros, ones := RowBytes(n, m), Filled(n, 0), Filled(n, 1);
    var merged := Merge(zeros, ones, rb, rb, m);
    SizeCovers(k, m);
    FilledWeight(n, 0, k - 1);
    FilledWeight(n, 1, 0);
    SharedBlock(merged, k);
    e, h := TwoUnits(Row(FirstByte, merged, k * 2, 0), Row(FirstByte, zeros, k, 0), Row(FirstByte, ones, k, 0));
  }

  lemma SharedBlock(data: Bytes, k: nat)
    requires k % 32 != 0
    ensures Weight(FirstByte, data, k - 1) == Weight(FirstByte, data, k)
  {
    assert (k - 1) / 32 == k / 32;
  }
}
