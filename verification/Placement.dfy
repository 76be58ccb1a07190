/**
 Where the head tools put tensors: the size of a tensor from its shape and type, and the allocator
 that appends blobs to the data section at aligned offsets.
 */
module Placement {
  import opened Helpers
  import opened Gguf

  // ---- tensor sizes

  datatype Block = Block(bytes: nat, len: nat)

  /** The block size in bytes and elements of a ggml type, if the table knows it. */
  function BlockOf(ty: nat): (r: Option<Block>)
    ensures r.Some? ==> r.value.bytes > 0 && r.value.len > 0
  {
    match ty
    case 0 => Some(Block(4, 1))
    case 1 => Some(Block(2, 1))
    case 2 => Some(Block(18, 32))
    case 3 => Some(Block(20, 32))
    case 6 => Some(Block(22, 32))
    case 7 => Some(Block(24, 32))
    case 8 => Some(Block(34, 32))
    case 9 => Some(Block(36, 32))
    case 10 => Some(Block(84, 256))
    case 11 => Some(Block(110, 256))
    case 12 => Some(Block(144, 256))
    case 13 => Some(Block(176, 256))
    case 14 => Some(Block(210, 256))
    case 15 => Some(Block(292, 256))
    case 16 => Some(Block(66, 256))
    case 17 => Some(Block(100, 256))
    case 18 => Some(Block(66, 256))
    case 19 => Some(Block(50, 256))
    case 20 => Some(Block(18, 32))
    case 21 => Some(Block(110, 256))
    case 22 => Some(Block(110, 256))
    case 23 => Some(Block(136, 256))
    case 24 => Some(Block(1, 1))
    case 25 => Some(Block(2, 1))
    case 26 => Some(Block(4, 1))
    case 27 => Some(Block(8, 1))
    case 28 => Some(Block(8, 1))
    case 29 => Some(Block(56, 256))
    case 30 => Some(Block(2, 1))
    case 31 => Some(Block(2, 1))
    case 34 => Some(Block(17, 256))
    case 35 => Some(Block(33, 256))
    case 39 => Some(Block(17, 32))
    case _ => None
  }

  /** The table by type number: its bytes and elements per block, zero for a type that it does not know. */
  lemma BlockTable(ty: nat)
    ensures ty < 20 ==>
              BlockOf(ty) == BlockIf(
                [4, 2, 18, 20, 0, 0, 22, 24, 34, 36, 84, 110, 144, 176, 210, 292, 66, 100, 66, 50][ty],
                if ty < 2 then 1 else if ty < 10 then 32 else 256)
    ensures 20 <= ty < 40 ==>
              BlockOf(ty) == BlockIf(
                [18, 110, 110, 136, 1, 2, 4, 8, 8, 56, 2, 2, 0, 0, 17, 33, 0, 0, 0, 17][ty - 20],
                if ty in {24, 25, 26, 27, 28, 30, 31} then 1 else if ty in {20, 39} then 32 else 256)
    ensures ty >= 40 ==> BlockOf(ty) == None
  {}

  function BlockIf(bytes: nat, len: nat): Option<Block> {
    if bytes == 0 then None else Some(Block(bytes, len))
  }

  function Product(ne: seq<nat>): nat {
    if ne == [] then 1 else Product(ne[..|ne| - 1]) * ne[|ne| - 1]
  }

  /** Whole blocks for n elements. */
  function BlockBytes(n: nat, b: Block): (r: nat)
    requires b.len > 0
  {
    (n + b.len - 1) / b.len * b.bytes
  }

  /** As many whole blocks as the elements need, and not one more. */
  lemma BlockBytesTight(n: nat, b: Block)
    requires b.len > 0
    ensures var blocks := (n + b.len - 1) / b.len;
            && BlockBytes(n, b) == blocks * b.bytes
            && n <= blocks * b.len < n + b.len
  {}

  /** The number of elements is the product of the dimensions. */
  lemma {:induction false} ProductOf(a: seq<nat>, b: seq<nat>, n: nat)
    ensures Product([]) == 1 && Product([n]) == n && Product(a + b) == Product(a) * Product(b)
  {
    assert [n][..0] == [];
    if b == [] {
      assert a + b == a;
    } else {
      var k := |b| - 1;
      ProductOf(a, b[..k], n);
      assert (a + b)[..|a + b| - 1] == a + b[..k];
      MulAssoc(Product(a), Product(b[..k]), b[k]);
    }
  }

  lemma MulAssoc(a: nat, b: nat, c: nat)
    ensures a * b * c == a * (b * c)
  {}

  function TensorBytes(ne: seq<nat>, ty: nat): nat
    requires BlockOf(ty).Some?
  {
    BlockBytes(Product(ne), BlockOf(ty).value)
  }

  method CountBytes(ne: seq<nat>, ty: nat) returns (r: Option<nat>)
    ensures r == if BlockOf(ty).None? then None else Some(TensorBytes(ne, ty))
  {
    var b := BlockOf(ty);
    if b.None? {
      return None;
    }
    var n: nat := 1;
    for i := 0 to |ne|
      invariant n == Product(ne[..i])
    {
      assert ne[..i + 1][..i] == ne[..i];
      n := n * ne[i];
    }
    assert ne[..|ne|] == ne;
    return Some(BlockBytes(n, b.value));
  }

  // ---- slices

  /** The slice data[off : off + n] of a Python sequence: cut off at the end, never an error. */
  function Slice(data: Bytes, off: nat, n: nat): (r: Bytes) {
    data[Min(off, |data|)..Min(off + n, |data|)]
  }

  /** A slice is what the data has of it, and has the length asked for exactly if it lies within the data
      (or nothing was asked for). */
  lemma SliceWholeIff(data: Bytes, off: nat, n: nat)
    ensures |Slice(data, off, n)| == Max(0, Min(n, |data| - off))
    ensures forall i :: 0 <= i < |Slice(data, off, n)| ==> Slice(data, off, n)[i] == data[off + i]
    ensures |Slice(data, off, n)| == n <==> n == 0 || off + n <= |data|
  {}

  lemma PartOfPart(data: Bytes, off: nat, n: nat, i: nat, k: nat)
    requires off + n <= |data| && i + k <= n
    ensures data[off..off + n][i..i + k] == data[off + i..off + i + k]
  {
    var whole := data[off..off + n];
    var left, right := whole[i..i + k], data[off + i..off + i + k];
    forall j | 0 <= j < k ensures left[j] == right[j] {
      assert whole[i + j] == data[off + (i + j)];
    }
  }

  lemma SliceInside(data: Bytes, off: nat, n: nat)
    requires off + n <= |data|
    ensures Slice(data, off, n) == data[off..off + n]
  {}

  lemma SliceOfSlice(data: Bytes, off: nat, n: nat, i: nat, k: nat)
    requires off + n <= |data| && i + k <= n
    ensures Slice(data, off + i, k) == Slice(Slice(data, off, n), i, k)
  {
    PartOfPart(data, off, n, i, k);
    SliceInside(data, off, n);
    SliceInside(data, off + i, k);
    SliceInside(Slice(data, off, n), i, k);
  }

  lemma SliceWithinPrefix(p: Bytes, row: Bytes, s: Bytes)
    requires p + row <= s
    ensures Slice(s, |p|, |row|) == row
  {
    assert s[|p|..|p| + |row|] == (p + row)[|p|..|p| + |row|];
  }

  // ---- the allocator

  /** A tensor waiting to be placed. */
  datatype Blob = Blob(name: Bytes, ne: seq<nat>, ty: nat, bytes: Bytes)

  function PlacedTensors(blobs: seq<Blob>, align: int): (r: seq<Tensor>)
    requires align > 0
    ensures |r| == |blobs|
  {
    if blobs == [] then [] else
      var rest, b := blobs[..|blobs| - 1], blobs[|blobs| - 1];
      PlacedTensors(rest, align) + [Tensor(b.name, b.ne, b.ty, Aligned(PlacedData(rest, align), align))]
  }

  function PlacedData(blobs: seq<Blob>, align: int): Bytes
    requires align > 0
  {
    if blobs == [] then [] else
      var data := PlacedData(blobs[..|blobs| - 1], align);
      data + Zeros(Padding(|data|, align)) + blobs[|blobs| - 1].bytes
  }

  /** The offset of the next blob. */
  function Aligned(data: Bytes, align: int): nat
    requires align > 0
  {
    |data| + Padding(|data|, align)
  }

  /** Where the k-th blob ends; -1-st ends at 0. */
  function EndOf(blobs: seq<Blob>, ts: seq<Tensor>, k: int): nat
    requires |ts| == |blobs| && -1 <= k < |blobs|
  {
    if k < 0 then 0 else ts[k].off + |blobs[k].bytes|
  }

  /** What a placement owes to blob k: its description, and its bytes at an aligned extent within the data, as
      soon after the previous extent as the alignment allows. */
  ghost predicate PlacedAt(blobs: seq<Blob>, ts: seq<Tensor>, data: Bytes, align: int, k: nat)
    requires align > 0 && |ts| == |blobs| && k < |blobs|
  {
    var t, b := ts[k], blobs[k];
    && t.name == b.name && t.ne == b.ne && t.ty == b.ty
    && t.off % align == 0
    && EndOf(blobs, ts, k - 1) <= t.off < EndOf(blobs, ts, k - 1) + align
    && t.off + |b.bytes| <= |data|
    && data[t.off..t.off + |b.bytes|] == b.bytes
    && forall j :: EndOf(blobs, ts, k - 1) <= j < t.off ==> data[j] == 0
  }

  ghost predicate Placed(blobs: seq<Blob>, ts: seq<Tensor>, data: Bytes, align: int)
    requires align > 0
  {
    && |ts| == |blobs|
    && (forall k :: 0 <= k < |blobs| ==> PlacedAt(blobs, ts, data, align, k))
    && EndOf(blobs, ts, |blobs| - 1) == |data|
  }

  lemma PlacedKeeps(blobs: seq<Blob>, ts: seq<Tensor>, data: Bytes, align: int, b: Blob, t: Tensor, more: Bytes, k: nat)
    requires align > 0 && |ts| == |blobs| && k < |blobs| && PlacedAt(blobs, ts, data, align, k)
    ensures PlacedAt(blobs + [b], ts + [t], data + more, align, k)
  {
    var off, n := ts[k].off, |blobs[k].bytes|;
    assert EndOf(blobs + [b], ts + [t], k - 1) == EndOf(blobs, ts, k - 1);
    assert (data + more)[off..off + n] == data[off..off + n];
  }

  lemma PlacedLast(blobs: seq<Blob>, ts: seq<Tensor>, data: Bytes, align: int, b: Blob)
    requires align > 0 && |ts| == |blobs| && EndOf(blobs, ts, |blobs| - 1) == |data|
    ensures var t := Tensor(b.name, b.ne, b.ty, Aligned(data, align));
            var data' := data + Zeros(Padding(|data|, align)) + b.bytes;
            && PlacedAt(blobs + [b], ts + [t], data', align, |blobs|)
            && EndOf(blobs + [b], ts + [t], |blobs|) == |data'|
  {
    var off := Aligned(data, align);
    var pad := Zeros(Padding(|data|, align));
    var t := Tensor(b.name, b.ne, b.ty, off);
    RoundUpIsPadded(|data|, align);
    assert EndOf(blobs + [b], ts + [t], |blobs| - 1) == |data|;
    assert (data + pad + b.bytes)[off..off + |b.bytes|] == b.bytes;
  }

  /** The allocator keeps every blob's bytes at an aligned extent of its own. */
  lemma {:induction false} PlacementSound(blobs: seq<Blob>, align: int)
    requires align > 0
    ensures Placed(blobs, PlacedTensors(blobs, align), PlacedData(blobs, align), align)
  {
    if blobs != [] {
      var n := |blobs| - 1;
      var rest, b := blobs[..n], blobs[n];
      var ts, data := PlacedTensors(rest, align), PlacedData(rest, align);
      var t := Tensor(b.name, b.ne, b.ty, Aligned(data, align));
      var pad := Zeros(Padding(|data|, align));
      PlacementSound(rest, align);
      PlacedLast(rest, ts, data, align, b);
      assert blobs == rest + [b];
      assert data + pad + b.bytes == data + (pad + b.bytes);
      forall k | 0 <= k < n ensures PlacedAt(blobs, ts + [t], PlacedData(blobs, align), align, k) {
        PlacedKeeps(rest, ts, data, align, b, t, pad + b.bytes, k);
      }
    }
  }

  /** Extents come in the order of the blobs and never overlap. */
  lemma {:induction false} ExtentsDisjoint(blobs: seq<Blob>, ts: seq<Tensor>, data: Bytes, align: int, i: nat, j: nat)
    requires align > 0 && Placed(blobs, ts, data, align) && i < j < |blobs|
    ensures ts[i].off + |blobs[i].bytes| <= ts[j].off
    decreases j
  {
    assert PlacedAt(blobs, ts, data, align, j);
    if i < j - 1 {
      ExtentsDisjoint(blobs, ts, data, align, i, j - 1);
    }
  }

  lemma PlacedPrefix(blobs: seq<Blob>, ts: seq<Tensor>, data: Bytes, align: int)
    requires align > 0 && Placed(blobs, ts, data, align) && blobs != []
    ensures var n := |blobs| - 1;
            var e := EndOf(blobs, ts, n - 1);
            && e <= |data| && Placed(blobs[..n], ts[..n], data[..e], align)
            && data == data[..e] + Zeros(Padding(e, align)) + blobs[n].bytes
            && ts[n].off == e + Padding(e, align)
  {
    var n := |blobs| - 1;
    var e := EndOf(blobs, ts, n - 1);
    assert PlacedAt(blobs, ts, data, align, n);
    AlignedUnique(e, ts[n].off, align);
    assert data[..e] + Zeros(Padding(e, align)) == data[..ts[n].off];
    assert data == data[..ts[n].off] + data[ts[n].off..];
    forall k | 0 <= k < n ensures PlacedAt(blobs[..n], ts[..n], data[..e], align, k) {
      assert PlacedAt(blobs, ts, data, align, k);
      if k < n - 1 {
        ExtentsDisjoint(blobs, ts, data, align, k, n - 1);
        assert ts[n - 1].off <= e;
      }
      assert EndOf(blobs[..n], ts[..n], k - 1) == EndOf(blobs, ts, k - 1);
      var off, m := ts[k].off, |blobs[k].bytes|;
      assert data[..e][off..off + m] == data[off..off + m];
    }
    assert n > 0 ==> EndOf(blobs[..n], ts[..n], n - 1) == e;
  }

  lemma AlignedUnique(e: nat, off: nat, align: int)
    requires align > 0 && off % align == 0 && e <= off < e + align
    ensures off == e + Padding(e, align)
  {
    RoundUpIsPadded(e, align);
    var other := e + Padding(e, align);
    var q, q' := off / align, other / align;
    assert off == q * align && other == q' * align;
    MulDiff(q, q', align);
    MulDiff(q', q, align);
    if q > q' {
      MulAtLeast(q - q', align);
    } else if q < q' {
      MulAtLeast(q' - q, align);
    }
  }

  lemma PlacedDescription(blobs: seq<Blob>, ts: seq<Tensor>, data: Bytes, align: int, k: nat)
    requires align > 0 && Placed(blobs, ts, data, align) && k < |blobs|
    ensures ts[k] == Tensor(blobs[k].name, blobs[k].ne, blobs[k].ty, ts[k].off)
  {
    assert PlacedAt(blobs, ts, data, align, k);
  }

  /** The allocator's layout is the only tight aligned one: nothing about table or data is left open. */
  lemma {:induction false} PlacementUnique(blobs: seq<Blob>, ts: seq<Tensor>, data: Bytes, align: int)
    requires align > 0 && Placed(blobs, ts, data, align)
    ensures ts == PlacedTensors(blobs, align) && data == PlacedData(blobs, align)
  {
    if blobs != [] {
      var n := |blobs| - 1;
      var e := EndOf(blobs, ts, n - 1);
      PlacedPrefix(blobs, ts, data, align);
      PlacementUnique(blobs[..n], ts[..n], data[..e], align);
      PlacedDescription(blobs, ts, data, align, n);
      assert ts == ts[..n] + [ts[n]];
    }
  }

  /** The converters' out_tensors and out_data. */
  class Allocator {
    const align: int
    var tensors: seq<Tensor>
    var data: Bytes
    ghost var blobs: seq<Blob>

    ghost predicate Valid()
      reads this
    {
      align > 0 && tensors == PlacedTensors(blobs, align) && data == PlacedData(blobs, align)
    }

    constructor (align: int)
      requires align > 0
      ensures Valid() && this.align == align && blobs == []
    {
      this.align := align;
      tensors, data, blobs := [], [], [];
    }

    method Place(name: Bytes, ne: seq<nat>, ty: nat, blob: Bytes)
      requires Valid()
      modifies this
      ensures Valid() && blobs == old(blobs) + [Blob(name, ne, ty, blob)]
    {
      blobs := blobs + [Blob(name, ne, ty, blob)];
      var pad := Padding(|data|, align);
      data := data + Zeros(pad);
      var off := |data|;
      data := data + blob;
      tensors := tensors + [Tensor(name, ne, ty, off)];
      assert blobs[..|blobs| - 1] == old(blobs);
    }
  }
}
