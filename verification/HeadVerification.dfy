/**
 verify-converted.py against convert-frspec-head.py: the byte comparison of the one applied to the output
 of the other, and exactly when it accepts.
 */
module HeadVerification {
  import opened Helpers
  import opened Gguf
  import opened Placement
  import opened HeadConversion
  import opened HeadMeaning

  // ---- the comparison

  /** The source tensor compared with an output tensor of this name. */
  function Origin(src: seq<Tensor>, name: Bytes): Option<Tensor> {
    if Lookup(src, name).Some? then Lookup(src, name) else
      var was :- RenamedFrom(name);
      Lookup(src, was)
  }

  predicate SameTensor(o: Tensor, od: Bytes, c: Tensor, cd: Bytes) {
    KnownType(o) && KnownType(c) && Content(o, od) == Content(c, cd) && o.ne == c.ne && o.ty == c.ty
  }

  /** Output tensor i, or whichever of its name comes last, is its origin byte for byte. */
  predicate AcceptsAt(src: seq<Tensor>, od: Bytes, out: seq<Tensor>, cd: Bytes, i: nat)
    requires i < |out|
  {
    var c, o := Lookup(out, out[i].name), Origin(src, out[i].name);
    c.Some? && o.Some? && SameTensor(o.value, od, c.value, cd)
  }

  predicate AcceptsCarried(src: seq<Tensor>, od: Bytes, out: seq<Tensor>, cd: Bytes) {
    forall i :: 0 <= i < |out| && out[i].name != EH_PROJ ==> AcceptsAt(src, od, out, cd, i)
  }

  /** The projection equals the merge recomputed from the source, with rows measured on the bytes found. */
  predicate AcceptsProjection(src: seq<Tensor>, od: Bytes, out: seq<Tensor>, cd: Bytes) {
    var e, h, eh := Lookup(src, FC_EMBD), Lookup(src, FC_HIDDEN), Lookup(out, EH_PROJ);
    && e.Some? && h.Some? && eh.Some?
    && KnownType(e.value) && KnownType(h.value) && KnownType(eh.value)
    && |e.value.ne| >= 2 && e.value.ne[1] > 0
    && var m := e.value.ne[1];
       var eb, hb := Content(e.value, od), Content(h.value, od);
       Content(eh.value, cd) == Merge(eb, hb, RowBytes(|eb|, m), RowBytes(|hb|, m), m)
           && eh.value.ne == [e.value.ne[0] * 2, m]
  }

  // ---- names

  /** Renaming keeps all names apart, and none is taken for the merged projection. */
  predicate NamesApart(ts: seq<Tensor>) {
    && (forall i, j :: 0 <= i < j < |ts| ==> Renamed(ts[i].name) != Renamed(ts[j].name))
    && (forall i :: 0 <= i < |ts| ==> Renamed(ts[i].name) != EH_PROJ)
  }

  /** The extent that table and type declare lies in the data. */
  predicate Within(t: Tensor, data: Bytes)
    requires KnownType(t)
  {
    SizeOf(t) == 0 || t.off + SizeOf(t) <= |data|
  }

  lemma RenamedTwice(name: Bytes)
    ensures Renamed(Renamed(name)) == Renamed(name)
  {
    assert |HC_NORM| == 27 && |HC_DOWN| == 27 && |HC_UP| == 25;
    assert |HC_HEAD_NORM| == 32 && |HC_HEAD_DOWN| == 32 && |HC_HEAD_UP| == 30;
  }

  lemma OriginFound(src: seq<Tensor>, i: nat)
    requires NamesApart(src) && i < |src|
    ensures Origin(src, Renamed(src[i].name)) == Some(src[i])
  {
    var name := src[i].name;
    LookupUnique(src, i);
    RenameInverse(name);
    RenamedTwice(name);
    LookupFinds(src, Renamed(name));
    if Renamed(name) != name {
      forall j | 0 <= j < |src| ensures src[j].name != Renamed(name) {
        assert j != i ==> Renamed(src[j].name) != Renamed(name);
      }
    }
  }

  lemma {:induction false} CarriedFrom(ts: seq<Tensor>, k: nat) returns (i: nat)
    requires k < |Carried(ts)|
    ensures i < |ts| && ts[i] == Carried(ts)[k] && !IsProjection(ts[i].name)
  {
    if !IsProjection(ts[|ts| - 1].name) && k == |Carried(ts)| - 1 {
      i := |ts| - 1;
    } else {
      i := CarriedFrom(ts[..|ts| - 1], k);
    }
  }

  lemma {:induction false} CarriedApart(ts: seq<Tensor>)
    requires NamesApart(ts)
    ensures NamesApart(Carried(ts))
  {
    if ts != [] {
      var init, last := ts[..|ts| - 1], ts[|ts| - 1];
      CarriedApart(init);
      forall k | 0 <= k < |Carried(init)| ensures Renamed(Carried(init)[k].name) != Renamed(last.name) {
        var i := CarriedFrom(init, k);
        assert init[i] == ts[i];
      }
    }
  }

  // ---- carried tensors

  /** A tensor copied with the slice, placed, and read again at its declared size is the same exactly if the
      slice was not cut short. */
  lemma CopyComparesIff(blobs: seq<Blob>, ts: seq<Tensor>, cd: Bytes, align: int, k: nat, o: Tensor, od: Bytes)
    requires align > 0 && Placed(blobs, ts, cd, align) && k < |blobs| - 1 && |blobs[|blobs| - 1].bytes| > 0
    requires KnownType(o) && blobs[k] == CarriedBlob(o, od)
    ensures SameTensor(o, od, ts[k], cd) <==> Within(o, od)
  {
    var n, c := |blobs| - 1, ts[k];
    var size, bytes := SizeOf(o), blobs[k].bytes;
    assert PlacedAt(blobs, ts, cd, align, k) && PlacedAt(blobs, ts, cd, align, n);
    ExtentsDisjoint(blobs, ts, cd, align, k, n);
    SliceWholeIff(od, o.off, size);
    if !Within(o, od) {
      assert |Content(c, cd)| > |bytes|;
    }
  }

  lemma OutputFound(blobs: seq<Blob>, align: int, k: nat)
    requires align > 0 && k < |blobs| && forall i, j :: 0 <= i < j < |blobs| ==> blobs[i].name != blobs[j].name
    ensures var ts := PlacedTensors(blobs, align);
            ts[k].name == blobs[k].name && Lookup(ts, ts[k].name) == Some(ts[k])
  {
    var ts := PlacedTensors(blobs, align);
    PlacementSound(blobs, align);
    forall i | 0 <= i < |blobs| ensures ts[i].name == blobs[i].name {
      assert PlacedAt(blobs, ts, PlacedData(blobs, align), align, i);
    }
    LookupUnique(ts, k);
  }

  /** What Converted places, spelt out. */
  lemma OutputShape(h: Header, data: Bytes) returns (blobs: seq<Blob>, e: Tensor, hid: Tensor)
    requires Alignment(h.entries) > 0 && Converted(h, data).Some?
    ensures var kept, align := Carried(h.tensors), Alignment(h.entries);
            && Lookup(h.tensors, FC_EMBD) == Some(e) && Lookup(h.tensors, FC_HIDDEN) == Some(hid) && Mergeable(e, hid)
            && |blobs| == |kept| + 1 && blobs[|kept|] == MergedBlob(e, hid, data)
            && (forall k :: 0 <= k < |kept| ==> KnownType(kept[k]) && blobs[k] == CarriedBlob(kept[k], data))
            && Converted(h, data).value == (h.(tensors := PlacedTensors(blobs, align)), PlacedData(blobs, align))
  {
    blobs := OutputBlobs(h.tensors, data).value;
    e, hid := Lookup(h.tensors, FC_EMBD).value, Lookup(h.tensors, FC_HIDDEN).value;
  }

  lemma BlobNamesApart(kept: seq<Tensor>, blobs: seq<Blob>)
    requires NamesApart(kept) && |blobs| == |kept| + 1 && blobs[|kept|].name == EH_PROJ
    requires forall k :: 0 <= k < |kept| ==> blobs[k].name == Renamed(kept[k].name)
    ensures forall i, j :: 0 <= i < j < |blobs| ==> blobs[i].name != blobs[j].name
  {}

  lemma CarriedAccepted(src: seq<Tensor>, od: Bytes, blobs: seq<Blob>, align: int, k: nat)
    requires align > 0 && NamesApart(src) && k < |Carried(src)| && |blobs| == |Carried(src)| + 1
    requires forall i, j :: 0 <= i < j < |blobs| ==> blobs[i].name != blobs[j].name
    requires KnownType(Carried(src)[k]) && blobs[k] == CarriedBlob(Carried(src)[k], od)
    requires |blobs[|blobs| - 1].bytes| > 0
    ensures AcceptsAt(src, od, PlacedTensors(blobs, align), PlacedData(blobs, align), k)
            <==> Within(Carried(src)[k], od)
  {
    var i := CarriedFrom(src, k);
    OriginFound(src, i);
    OutputFound(blobs, align, k);
    PlacementSound(blobs, align);
    CopyComparesIff(blobs, PlacedTensors(blobs, align), PlacedData(blobs, align), align, k, src[i], od);
  }

  lemma AcceptsAllIff(src: seq<Tensor>, od: Bytes, blobs: seq<Blob>, align: int)
    requires align > 0 && NamesApart(src) && |blobs| == |Carried(src)| + 1
    requires blobs[|blobs| - 1].name == EH_PROJ && |blobs[|blobs| - 1].bytes| > 0
    requires forall k :: 0 <= k < |Carried(src)| ==>
               KnownType(Carried(src)[k]) && blobs[k] == CarriedBlob(Carried(src)[k], od)
    ensures AcceptsCarried(src, od, PlacedTensors(blobs, align), PlacedData(blobs, align)) <==>
              forall k :: 0 <= k < |Carried(src)| ==> KnownType(Carried(src)[k]) && Within(Carried(src)[k], od)
  {
    var kept, ts := Carried(src), PlacedTensors(blobs, align);
    CarriedApart(src);
    BlobNamesApart(kept, blobs);
    OutputFound(blobs, align, |kept|);
    forall k | 0 <= k < |kept| ensures ts[k].name != EH_PROJ {
      OutputFound(blobs, align, k);
    }
    forall k | 0 <= k < |kept| ensures AcceptsAt(src, od, ts, PlacedData(blobs, align), k) <==> Within(kept[k], od) {
      CarriedAccepted(src, od, blobs, align, k);
    }
  }

  /** The verifier accepts every carried tensor exactly if every carried extent lies in the source data. */
  lemma AcceptsCarriedIff(h: Header, data: Bytes)
    requires Alignment(h.entries) > 0 && Converted(h, data).Some? && NamesApart(h.tensors)
    requires var hid := Lookup(h.tensors, FC_HIDDEN).value; hid.ne[0] > 0 && Within(hid, data)
    ensures var (h', data') := Converted(h, data).value;
            var kept := Carried(h.tensors);
            AcceptsCarried(h.tensors, data, h'.tensors, data') <==>
              forall k :: 0 <= k < |kept| ==> KnownType(kept[k]) && Within(kept[k], data)
  {
    var blobs, e, hid := OutputShape(h, data);
    MergedNotEmpty(e, hid, data);
    AcceptsAllIff(h.tensors, data, blobs, Alignment(h.entries));
  }

  // ---- the merged projection

  lemma SizeOfProjection(t: Tensor, k: nat, m: nat)
    requires t.ne == [k, m] && t.ty == Q8_0
    ensures KnownType(t) && SizeOf(t) == ProjectionBytes(k, m)
  {}

  lemma RowNotEmpty(k: nat, m: nat)
    requires k > 0 && m > 0
    ensures RowBytes(ProjectionBytes(k, m), m) > 0
  {
    ProductOfTwo(k, m);
    var n, size := k * m, ProjectionBytes(k, m);
    MulMono(1, k, m);
    assert size >= n >= m;
    assert size / m == 0 ==> size < m;
  }

  lemma RowsCover(size: nat, m: nat)
    requires m > 0
    ensures m * RowBytes(size, m) <= size
  {
    assert size == size / m * m + size % m;
    assert m * (size / m) == size / m * m;
  }

  /** The last row of fc_hidden is part of the merge. */
  lemma LastRowIncluded(eb: Bytes, hb: Bytes, rb: nat, rb2: nat, m: nat)
    requires m > 0 && rb2 > 0 && m * rb2 <= |hb|
    ensures |Merge(eb, hb, rb, rb2, m)| > 0
  {
    var at := (m - 1) * rb2;
    RowWithin(m, m - 1, rb2, |hb|);
    SliceWholeIff(hb, at, rb2);
    assert Merge(eb, hb, rb, rb2, m)
        == Merge(eb, hb, rb, rb2, m - 1) + Slice(eb, (m - 1) * rb, rb) + Slice(hb, at, rb2);
  }

  lemma MergedNotEmpty(e: Tensor, hid: Tensor, data: Bytes)
    requires Mergeable(e, hid) && hid.ne[0] > 0 && Within(hid, data)
    ensures |MergedBlob(e, hid, data).bytes| > 0
  {
    var k, m := hid.ne[0], hid.ne[1];
    SizeOfProjection(hid, k, m);
    RowNotEmpty(k, m);
    RowsCover(SizeOf(hid), m);
    SliceWholeIff(data, hid.off, SizeOf(hid));
    LastRowIncluded(Content(e, data), Content(hid, data), RowBytes(SizeOf(e), m), RowBytes(SizeOf(hid), m), m);
  }

  /** The last blob reads back at its declared size exactly if it is not longer than that. */
  lemma LastComparesIff(blobs: seq<Blob>, ts: seq<Tensor>, cd: Bytes, align: int)
    requires align > 0 && blobs != [] && Placed(blobs, ts, cd, align) && KnownType(ts[|ts| - 1])
    ensures var n := |ts| - 1;
            Content(ts[n], cd) == blobs[n].bytes <==> |blobs[n].bytes| <= SizeOf(ts[n])
  {
    var n := |ts| - 1;
    assert PlacedAt(blobs, ts, cd, align, n);
    SliceWholeIff(cd, ts[n].off, SizeOf(ts[n]));
  }

  lemma MergeWholeLength(eb: Bytes, hb: Bytes, size: nat, m: nat)
    requires m > 0 && |eb| == size && |hb| == size
    ensures |Merge(eb, hb, RowBytes(size, m), RowBytes(size, m), m)| == 2 * (m * RowBytes(size, m))
  {
    var rb := RowBytes(size, m);
    RowsCover(size, m);
    MergeLength(eb, hb, rb, rb, m);
    assert m * (rb + rb) == 2 * (m * rb);
  }

  /** The merge of two whole matrices, and its length. */
  lemma MergeOfWhole(e: Tensor, hid: Tensor, data: Bytes, k: nat, m: nat)
    requires Mergeable(e, hid) && e.ne == [k, m] && Within(e, data) && Within(hid, data)
    ensures |Content(e, data)| == ProjectionBytes(k, m) && |Content(hid, data)| == ProjectionBytes(k, m)
    ensures |MergedBlob(e, hid, data).bytes| == 2 * (m * RowBytes(ProjectionBytes(k, m), m))
  {
    SizeOfProjection(e, k, m);
    SizeOfProjection(hid, k, m);
    SliceWholeIff(data, e.off, SizeOf(e));
    SliceWholeIff(data, hid.off, SizeOf(hid));
    MergeWholeLength(Content(e, data), Content(hid, data), SizeOf(e), m);
  }

  lemma LastPlaced(blobs: seq<Blob>, align: int)
    requires align > 0 && blobs != []
    ensures var (t, b) := (PlacedTensors(blobs, align)[|blobs| - 1], blobs[|blobs| - 1]);
            t.name == b.name && t.ne == b.ne && t.ty == b.ty
  {}

  lemma ProjectionComparesIff(blobs: seq<Blob>, align: int, e: Tensor, hid: Tensor, data: Bytes, k: nat, m: nat)
    requires align > 0 && blobs != [] && Mergeable(e, hid) && blobs[|blobs| - 1] == MergedBlob(e, hid, data)
    requires e.ne == [k, m] && Within(e, data) && Within(hid, data)
    ensures var eh := PlacedTensors(blobs, align)[|blobs| - 1];
            && KnownType(eh) && eh.ne == [k * 2, m]
            && (Content(eh, PlacedData(blobs, align)) == MergedBlob(e, hid, data).bytes <==>
                  2 * (m * RowBytes(ProjectionBytes(k, m), m)) <= ProjectionBytes(k * 2, m))
  {
    var ts := PlacedTensors(blobs, align);
    LastPlaced(blobs, align);
    SizeOfProjection(ts[|blobs| - 1], k * 2, m);
    PlacementSound(blobs, align);
    LastComparesIff(blobs, ts, PlacedData(blobs, align), align);
    MergeOfWhole(e, hid, data, k, m);
  }

  lemma ProjectionAcceptedIff(src: seq<Tensor>, od: Bytes, blobs: seq<Blob>, align: int, e: Tensor, hid: Tensor,
      k: nat, m: nat)
    requires align > 0 && blobs != [] && Mergeable(e, hid) && blobs[|blobs| - 1] == MergedBlob(e, hid, od)
    requires Lookup(src, FC_EMBD) == Some(e) && Lookup(src, FC_HIDDEN) == Some(hid)
    requires Lookup(PlacedTensors(blobs, align), EH_PROJ) == Some(PlacedTensors(blobs, align)[|blobs| - 1])
    requires e.ne == [k, m] && Within(e, od) && Within(hid, od)
    ensures AcceptsProjection(src, od, PlacedTensors(blobs, align), PlacedData(blobs, align)) <==>
              2 * (m * RowBytes(ProjectionBytes(k, m), m)) <= ProjectionBytes(k * 2, m)
  {
    ProjectionComparesIff(blobs, align, e, hid, od, k, m);
    MergeOfWhole(e, hid, od, k, m);
    SizeOfProjection(e, k, m);
    SizeOfProjection(hid, k, m);
  }

  /** For two matrices of k by m, wholly in the data, the verifier accepts the merge exactly if the rows as the
      script cuts them fit the declared shape. */
  lemma AcceptsProjectionIff(h: Header, data: Bytes, k: nat, m: nat)
    requires Alignment(h.entries) > 0 && Converted(h, data).Some? && NamesApart(h.tensors)
    requires var (e, hid) := (Lookup(h.tensors, FC_EMBD).value, Lookup(h.tensors, FC_HIDDEN).value);
             e.ne == [k, m] && Within(e, data) && Within(hid, data)
    ensures var (h', data') := Converted(h, data).value;
            AcceptsProjection(h.tensors, data, h'.tensors, data') <==>
              2 * (m * RowBytes(ProjectionBytes(k, m), m)) <= ProjectionBytes(k * 2, m)
  {
    var kept, align := Carried(h.tensors), Alignment(h.entries);
    var blobs, e, hid := OutputShape(h, data);
    CarriedApart(h.tensors);
    BlobNamesApart(kept, blobs);
    OutputFound(blobs, align, |kept|);
    ProjectionAcceptedIff(h.tensors, data, blobs, align, e, hid, k, m);
  }

  // ---- from file to file

  /** The script's verdict on a pair of files, apart from its range check on d2t. */
  predicate Verified(original: Bytes, converted: Bytes) {
    var o, c := ReadFile(original), ReadFile(converted);
    && o.Some? && c.Some?
    && AcceptsCarried(o.value.0.tensors, o.value.1, c.value.0.tensors, c.value.1)
    && AcceptsProjection(o.value.0.tensors, o.value.1, c.value.0.tensors, c.value.1)
  }

  /** A source the script is meant for: distinct names, whole extents, two equal projections. */
  predicate Sound(h: Header, data: Bytes, k: nat, m: nat) {
    var e, hid, kept := Lookup(h.tensors, FC_EMBD), Lookup(h.tensors, FC_HIDDEN), Carried(h.tensors);
    && k > 0 && NamesApart(h.tensors)
    && e.Some? && hid.Some? && e.value.ne == [k, m]
    && KnownType(e.value) && KnownType(hid.value) && Within(e.value, data) && Within(hid.value, data)
    && forall i :: 0 <= i < |kept| ==> KnownType(kept[i]) && Within(kept[i], data)
  }

  lemma SoundVerifies(h: Header, data: Bytes, k: nat, m: nat)
    requires Alignment(h.entries) > 0 && Converted(h, data).Some? && k % 32 == 0 && Sound(h, data, k, m)
    ensures var (h', data') := Converted(h, data).value;
            AcceptsCarried(h.tensors, data, h'.tensors, data') && AcceptsProjection(h.tensors, data, h'.tensors, data')
  {
    var blobs, e, hid := OutputShape(h, data);
    AcceptsCarriedIff(h, data);
    AcceptsProjectionIff(h, data, k, m);
    WholeRowsFit(k, m);
  }

  lemma WholeRowsFit(k: nat, m: nat)
    requires k % 32 == 0 && m > 0
    ensures 2 * (m * RowBytes(ProjectionBytes(k, m), m)) <= ProjectionBytes(k * 2, m)
  {
    assert k == 32 * (k / 32);
    WholeBlocks(k / 32, m);
    RowsCover(ProjectionBytes(k, m), m);
  }

  /** Whatever the script writes for such a source with whole blocks to the row passes verification. */
  lemma ConvertedVerifies(file: Bytes, k: nat, m: nat)
    requires k % 32 == 0 && ConvertedFile(file).Some? && Sound(ReadFile(file).value.0, ReadFile(file).value.1, k, m)
    ensures Verified(file, ConvertedFile(file).value)
  {
    ConvertedReadsBack(file);
    SoundVerifies(ReadFile(file).value.0, ReadFile(file).value.1, k, m);
  }

  /** The bytes of the tensor of this name in a file, none if there is no such tensor. */
  function ContentIn(file: Bytes, name: Bytes): Bytes {
    if ReadFile(file).None? then [] else
      var (h, data) := ReadFile(file).value;
      var t := Lookup(h.tensors, name);
      if t.Some? && KnownType(t.value) then Content(t.value, data) else []
  }

  lemma ConvertedProjection(file: Bytes, k: nat, m: nat)
    requires ConvertedFile(file).Some? && Sound(ReadFile(file).value.0, ReadFile(file).value.1, k, m)
    requires Verified(file, ConvertedFile(file).value)
    ensures var (eb, hb, n) := (ContentIn(file, FC_EMBD), ContentIn(file, FC_HIDDEN), ProjectionBytes(k, m));
            && m > 0 && |eb| == n && |hb| == n
            && ContentIn(ConvertedFile(file).value, EH_PROJ) == Merge(eb, hb, RowBytes(n, m), RowBytes(n, m), m)
  {
    ReadFileAligned(file);
    var (h, data) := ReadFile(file).value;
    var blobs, e, hid := OutputShape(h, data);
    MergeOfWhole(e, hid, data, k, m);
  }

  /** And its merged projection, read out of the new file, computes the sum of the two old ones. */
  lemma ConvertedMeans(file: Bytes, k: nat, m: nat, dq: Dequantiser, x: seq<real>, y: seq<real>, r: nat)
    requires k % 32 == 0 && ConvertedFile(file).Some? && Sound(ReadFile(file).value.0, ReadFile(file).value.1, k, m)
    requires |x| == k && |y| == k && r < m
    ensures Dot(Row(dq, ContentIn(ConvertedFile(file).value, EH_PROJ), k * 2, r), x + y)
         == Dot(Row(dq, ContentIn(file, FC_EMBD), k, r), x) + Dot(Row(dq, ContentIn(file, FC_HIDDEN), k, r), y)
  {
    ConvertedVerifies(file, k, m);
    ConvertedProjection(file, k, m);
    MergedMeaning(dq, ContentIn(file, FC_EMBD), ContentIn(file, FC_HIDDEN), k, m, x, y, r);
  }

  lemma SharedBlocksFit()
    ensures ProjectionBytes(16, 2) == 34 && ProjectionBytes(32, 2) == 68 && RowBytes(34, 2) == 17
  {
    ProductOfTwo(16, 2);
    ProductOfTwo(32, 2);
  }

  lemma ProjectionNames()
    ensures NamesApart([Tensor(FC_EMBD, [16, 2], Q8_0, 0), Tensor(FC_HIDDEN, [16, 2], Q8_0, 34)])
    ensures FC_EMBD != FC_HIDDEN
  {
    assert |FC_EMBD| == 27 && |FC_HIDDEN| == 29 && |EH_PROJ| == 27 && |HC_UP| == 25;
    assert |HC_NORM| == 27 && |HC_DOWN| == 27;
    assert FC_EMBD[13] == 102 && EH_PROJ[13] == 101 && HC_NORM[13] == 104 && HC_DOWN[13] == 104;
  }

  /** Two projections of 16 columns by 2 rows: all zeros, and all ones. */
  function SharedBlocks(): (Header, Bytes) {
    (Header(3, [], [Tensor(FC_EMBD, [16, 2], Q8_0, 0), Tensor(FC_HIDDEN, [16, 2], Q8_0, 34)]),
        Filled(34, 0) + Filled(34, 1))
  }

  lemma SharedBlocksConvert()
    ensures var (h, data) := SharedBlocks();
            var (e, hid) := (Tensor(FC_EMBD, [16, 2], Q8_0, 0), Tensor(FC_HIDDEN, [16, 2], Q8_0, 34));
            && Alignment(h.entries) == 32 && Carried(h.tensors) == [] && NamesApart(h.tensors)
            && Lookup(h.tensors, FC_EMBD) == Some(e) && Lookup(h.tensors, FC_HIDDEN) == Some(hid)
            && KnownType(e) && KnownType(hid) && Within(e, data) && Within(hid, data)
            && Content(e, data) == Filled(34, 0) && Content(hid, data) == Filled(34, 1)
            && Converted(h, data).Some?
  {
    var (h, data) := SharedBlocks();
    var e, hid := h.tensors[0], h.tensors[1];
    ProjectionNames();
    SharedBlocksFit();
    SizeOfProjection(e, 16, 2);
    SizeOfProjection(hid, 16, 2);
    assert h.tensors[..1] == [e] && [e][..0] == [];
    assert Carried([e]) == [] && Carried(h.tensors) == Carried([e]);
    assert Lookup(h.tensors, FC_EMBD) == Lookup([e], FC_EMBD) == Some(e);
  }

  /** The byte comparison alone does not see a shared block: a source of this shape is converted, the verifier accepts
      every tensor of the result, and the projection in it computes something else than the two old ones. */
  lemma VerifierMissesSharedBlocks() returns (x: seq<real>, y: seq<real>)
    ensures |x| == 16 && |y| == 16
    ensures var (h, data) := SharedBlocks();
            && Alignment(h.entries) > 0 && Converted(h, data).Some?
            && var (h', data') := Converted(h, data).value;
               var (e, hid, eh) := (Lookup(h.tensors, FC_EMBD), Lookup(h.tensors, FC_HIDDEN),
                   Lookup(h'.tensors, EH_PROJ));
               && AcceptsCarried(h.tensors, data, h'.tensors, data')
                   && AcceptsProjection(h.tensors, data, h'.tensors, data')
               && Dot(Row(FirstByte, Content(eh.value, data'), 32, 0), x + y)
                    != Dot(Row(FirstByte, Content(e.value, data), 16, 0), x)
                        + Dot(Row(FirstByte, Content(hid.value, data), 16, 0), y)
  {
    var (h, data) := SharedBlocks();
    SharedBlocksConvert();
    SharedBlocksFit();
    AcceptsCarriedIff(h, data);
    AcceptsProjectionIff(h, data, 16, 2);
    x, y := SplitBlocksBreakMeaning(16, 2);
  }
}
