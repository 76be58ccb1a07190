/**
 convert-frspec-head.py: carry every tensor of the draft head to a new aligned place, rename three of
 them, and merge the two projections fc_embd and fc_hidden into one eh_proj, row by row. From the bytes
 of one file to the bytes of the other, with exactly the inputs for which the script stops.
 */
module HeadConversion {
  import opened Helpers
  import opened Gguf
  import opened Placement

  // ---- tensor names

  const FC_EMBD := Ascii("blk.48.nextn.fc_embd.weight")
  const FC_HIDDEN := Ascii("blk.48.nextn.fc_hidden.weight")
  const EH_PROJ := Ascii("blk.48.nextn.eh_proj.weight")
  const HC_NORM := Ascii("blk.48.nextn.hc_norm.weight")
  const HC_DOWN := Ascii("blk.48.nextn.hc_down.weight")
  const HC_UP := Ascii("blk.48.nextn.hc_up.weight")
  const HC_HEAD_NORM := Ascii("blk.48.nextn.hc_head_norm.weight")
  const HC_HEAD_DOWN := Ascii("blk.48.nextn.hc_head_down.weight")
  const HC_HEAD_UP := Ascii("blk.48.nextn.hc_head_up.weight")

  function Renamed(name: Bytes): Bytes {
    if name == HC_NORM then HC_HEAD_NORM
    else if name == HC_DOWN then HC_HEAD_DOWN
    else if name == HC_UP then HC_HEAD_UP
    else name
  }

  /** The verifier's search for the source of a renamed tensor. */
  function RenamedFrom(name: Bytes): Option<Bytes> {
    if name == HC_HEAD_NORM then Some(HC_NORM)
    else if name == HC_HEAD_DOWN then Some(HC_DOWN)
    else if name == HC_HEAD_UP then Some(HC_UP)
    else None
  }

  lemma RenameInverse(name: Bytes)
    ensures Renamed(name) == name || RenamedFrom(Renamed(name)) == Some(name)
  {
    assert |HC_HEAD_UP| < |HC_HEAD_DOWN|;
    assert HC_HEAD_NORM[21] != HC_HEAD_DOWN[21];
  }

  /** The three renamings, and that every other name stays; what comes out is never an old name. */
  lemma RenamedIs(name: Bytes)
    ensures Renamed(Ascii("blk.48.nextn.hc_norm.weight")) == Ascii("blk.48.nextn.hc_head_norm.weight")
    ensures Renamed(Ascii("blk.48.nextn.hc_down.weight")) == Ascii("blk.48.nextn.hc_head_down.weight")
    ensures Renamed(Ascii("blk.48.nextn.hc_up.weight")) == Ascii("blk.48.nextn.hc_head_up.weight")
    ensures name !in OldNames() ==> Renamed(name) == name
    ensures Renamed(name) !in OldNames()
    ensures !IsProjection(name) ==> !IsProjection(Renamed(name))
  {
    assert HC_NORM[16] != HC_DOWN[16];
    assert |HC_UP| < |HC_NORM| == |FC_EMBD| < |FC_HIDDEN| < |HC_HEAD_UP| < |HC_HEAD_NORM| == |HC_HEAD_DOWN|;
  }

  function OldNames(): set<Bytes> {
    { Ascii("blk.48.nextn.hc_norm.weight"), Ascii("blk.48.nextn.hc_down.weight"),
      Ascii("blk.48.nextn.hc_up.weight") }
  }

  predicate IsProjection(name: Bytes) { name == FC_EMBD || name == FC_HIDDEN }

  /** A name is looked up in a dictionary of the table, where the last tensor of a name wins. */
  function Lookup(ts: seq<Tensor>, name: Bytes): Option<Tensor> {
    if ts == [] then None
    else if ts[|ts| - 1].name == name then Some(ts[|ts| - 1])
    else Lookup(ts[..|ts| - 1], name)
  }

  lemma {:induction false} LookupFinds(ts: seq<Tensor>, name: Bytes)
    ensures Lookup(ts, name).Some? <==> exists i :: 0 <= i < |ts| && ts[i].name == name
    ensures Lookup(ts, name).Some? ==> Lookup(ts, name).value in ts && Lookup(ts, name).value.name == name
  {
    if ts != [] {
      LookupFinds(ts[..|ts| - 1], name);
    }
  }

  /** With distinct names every tensor is found under its own. */
  lemma {:induction false} LookupUnique(ts: seq<Tensor>, i: nat)
    requires i < |ts| && forall j :: 0 <= j < |ts| && j != i ==> ts[j].name != ts[i].name
    ensures Lookup(ts, ts[i].name) == Some(ts[i])
  {
    if i < |ts| - 1 {
      LookupUnique(ts[..|ts| - 1], i);
    }
  }

  /** The last tensor of a name is the one that is found. */
  lemma {:induction false} LookupIsLast(ts: seq<Tensor>, name: Bytes, i: nat)
    requires i < |ts| && ts[i].name == name && forall j :: i < j < |ts| ==> ts[j].name != name
    ensures Lookup(ts, name) == Some(ts[i])
  {
    if i < |ts| - 1 {
      LookupIsLast(ts[..|ts| - 1], name, i);
    }
  }

  // ---- the conversion

  /** The carried tensors. */
  function Carried(ts: seq<Tensor>): seq<Tensor> {
    if ts == [] then [] else
      var rest, t := Carried(ts[..|ts| - 1]), ts[|ts| - 1];
      if IsProjection(t.name) then rest else rest + [t]
  }

  /** All but the two projections, in order. */
  lemma {:induction false} CarriedIs(a: seq<Tensor>, b: seq<Tensor>, t: Tensor)
    ensures Carried(a + b) == Carried(a) + Carried(b)
    ensures Carried([t]) ==
      if t.name in {Ascii("blk.48.nextn.fc_embd.weight"), Ascii("blk.48.nextn.fc_hidden.weight")} then [] else [t]
  {
    assert [t][..0] == [];
    if b == [] {
      assert a + b == a;
    } else {
      CarriedIs(a, b[..|b| - 1], t);
      assert (a + b)[..|a + b| - 1] == a + b[..|b| - 1];
    }
  }

  predicate KnownType(t: Tensor) { BlockOf(t.ty).Some? }

  function SizeOf(t: Tensor): nat
    requires KnownType(t)
  {
    TensorBytes(t.ne, t.ty)
  }

  function Content(t: Tensor, data: Bytes): Bytes
    requires KnownType(t)
  {
    Slice(data, t.off, SizeOf(t))
  }

  function CarriedBlob(t: Tensor, data: Bytes): Blob
    requires KnownType(t)
  {
    Blob(Renamed(t.name), t.ne, t.ty, Content(t, data))
  }

  function CarriedBlobs(ts: seq<Tensor>, data: Bytes): (r: seq<Blob>)
    requires forall i :: 0 <= i < |ts| ==> KnownType(ts[i])
    ensures |r| == |ts|
  {
    seq(|ts|, i requires 0 <= i < |ts| => CarriedBlob(ts[i], data))
  }

  const Q8_0: nat := 8

  predicate Mergeable(e: Tensor, h: Tensor) {
    && e.ty == Q8_0 && h.ty == Q8_0
    && |e.ne| >= 2 && h.ne == [e.ne[0], e.ne[1]] && e.ne[1] > 0
  }

  function RowBytes(size: nat, m: nat): nat
    requires m > 0
  {
    size / m
  }

  /** m rows of rb and rb2 bytes, taken alternately. */
  function Merge(eb: Bytes, hb: Bytes, rb: nat, rb2: nat, m: nat): Bytes {
    if m == 0 then []
    else Merge(eb, hb, rb, rb2, m - 1) + Slice(eb, (m - 1) * rb, rb) + Slice(hb, (m - 1) * rb2, rb2)
  }

  function MergedBlob(e: Tensor, h: Tensor, data: Bytes): Blob
    requires Mergeable(e, h)
  {
    var m := e.ne[1];
    Blob(EH_PROJ, [e.ne[0] * 2, m], e.ty,
        Merge(Content(e, data), Content(h, data), RowBytes(SizeOf(e), m), RowBytes(SizeOf(h), m), m))
  }

  function OutputBlobs(ts: seq<Tensor>, data: Bytes): Option<seq<Blob>> {
    var e :- Lookup(ts, FC_EMBD);
    var h :- Lookup(ts, FC_HIDDEN);
    var carried := Carried(ts);
    if (forall i :: 0 <= i < |carried| ==> KnownType(carried[i])) && Mergeable(e, h)
    then Some(CarriedBlobs(carried, data) + [MergedBlob(e, h, data)])
    else None
  }

  /** The converted file's header and data; None where the script stops with an error. */
  function Converted(h: Header, data: Bytes): Option<(Header, Bytes)>
    requires Alignment(h.entries) > 0
  {
    var blobs :- OutputBlobs(h.tensors, data);
    var align := Alignment(h.entries);
    Some((h.(tensors := PlacedTensors(blobs, align)), PlacedData(blobs, align)))
  }

  lemma {:induction false} CarriedAreOthers(ts: seq<Tensor>, k: nat)
    requires k < |Carried(ts)|
    ensures !IsProjection(Carried(ts)[k].name)
  {
    if k < |Carried(ts[..|ts| - 1])| {
      CarriedAreOthers(ts[..|ts| - 1], k);
    }
  }

  /** The output in the order of the carried tensors, each with its shape, type and bytes, and then the merged
      projection. */
  lemma OutputIs(ts: seq<Tensor>, data: Bytes, k: nat)
    requires OutputBlobs(ts, data).Some? && k < |OutputBlobs(ts, data).value|
    ensures var blobs := OutputBlobs(ts, data).value;
            && |blobs| == |Carried(ts)| + 1
            && if k == |Carried(ts)| then
                 var e := Lookup(ts, Ascii("blk.48.nextn.fc_embd.weight"));
                 && blobs[k].name == Ascii("blk.48.nextn.eh_proj.weight") && blobs[k].ty == 8
                 && e.Some? && |e.value.ne| >= 2 && blobs[k].ne == [2 * e.value.ne[0], e.value.ne[1]]
               else
                 && KnownType(Carried(ts)[k])
                 && var t := Carried(ts)[k];
                    blobs[k] == Blob(Renamed(t.name), t.ne, t.ty, Slice(data, t.off, TensorBytes(t.ne, t.ty)))
  {}

  lemma MergedNameIsNew()
    ensures EH_PROJ !in OldNames() && !IsProjection(EH_PROJ)
  {
    assert |HC_UP| < |HC_NORM| == |FC_EMBD| == |HC_DOWN| == |EH_PROJ| < |FC_HIDDEN|;
    assert EH_PROJ[13] != FC_EMBD[13] && EH_PROJ[13] != HC_NORM[13] && EH_PROJ[13] != HC_DOWN[13];
  }

  /** No tensor of the output has one of the three old names or the name of an old projection. */
  lemma OldNamesGone(ts: seq<Tensor>, data: Bytes, k: nat)
    requires OutputBlobs(ts, data).Some? && k < |OutputBlobs(ts, data).value|
    ensures var name := OutputBlobs(ts, data).value[k].name; name !in OldNames() && !IsProjection(name)
  {
    OutputIs(ts, data, k);
    if k < |Carried(ts)| {
      CarriedAreOthers(ts, k);
      RenamedIs(Carried(ts)[k].name);
    } else {
      MergedNameIsNew();
    }
  }

  lemma ReadFileAligned(file: Bytes)
    ensures ReadFile(file).Some? ==> HeaderFits(ReadFile(file).value.0) && Alignment(ReadFile(file).value.0.entries) > 0
  {
    ReadHeaderFits(file);
  }

  /** From file to file. An offset, a dimension or a count that does not fit its field is an error too. */
  function ConvertedFile(file: Bytes): Option<Bytes> {
    ReadFileAligned(file);
    var (h, data) :- ReadFile(file);
    var (h', data') :- Converted(h, data);
    if HeaderFits(h') then Some(WriteFile(h', data')) else None
  }

  // ---- the script's loops

  method MergeRows(eb: Bytes, hb: Bytes, rb: nat, rb2: nat, m: nat) returns (merged: Bytes)
    ensures merged == Merge(eb, hb, rb, rb2, m)
  {
    merged := [];
    for r := 0 to m
      invariant merged == Merge(eb, hb, rb, rb2, r)
    {
      merged := merged + Slice(eb, r * rb, rb);
      merged := merged + Slice(hb, r * rb2, rb2);
    }
  }

  method FindByName(ts: seq<Tensor>, name: Bytes) returns (r: Option<Tensor>)
    ensures r == Lookup(ts, name)
  {
    r := None;
    for i := 0 to |ts|
      invariant r == Lookup(ts[..i], name)
    {
      assert ts[..i + 1][..i] == ts[..i];
      if ts[i].name == name {
        r := Some(ts[i]);
      }
    }
    assert ts[..|ts|] == ts;
  }

  lemma {:induction false} CarriedPrefix(ts: seq<Tensor>, i: nat)
    requires i <= |ts|
    ensures Carried(ts[..i]) <= Carried(ts)
    decreases |ts|
  {
    if i < |ts| {
      CarriedPrefix(ts[..|ts| - 1], i);
      assert ts[..|ts| - 1][..i] == ts[..i];
    } else {
      assert ts[..i] == ts;
    }
  }

  lemma CarriedStep(ts: seq<Tensor>, i: nat)
    requires i < |ts|
    ensures Carried(ts[..i + 1]) == if IsProjection(ts[i].name) then Carried(ts[..i]) else Carried(ts[..i]) + [ts[i]]
  {
    assert ts[..i + 1][..i] == ts[..i];
  }

  lemma CarriedBlobsSnoc(ts: seq<Tensor>, t: Tensor, data: Bytes)
    requires KnownType(t) && forall i :: 0 <= i < |ts| ==> KnownType(ts[i])
    ensures CarriedBlobs(ts + [t], data) == CarriedBlobs(ts, data) + [CarriedBlob(t, data)]
  {}

  /** The copying loop; it stops at the first carried tensor of unknown type. */
  method CarryAll(ts: seq<Tensor>, data: Bytes, out: Allocator) returns (ok: bool)
    requires out.Valid() && out.blobs == []
    modifies out
    ensures out.Valid()
    ensures ok == forall i :: 0 <= i < |Carried(ts)| ==> KnownType(Carried(ts)[i])
    ensures ok ==> out.blobs == CarriedBlobs(Carried(ts), data)
  {
    for i := 0 to |ts|
      invariant out.Valid()
      invariant forall k :: 0 <= k < |Carried(ts[..i])| ==> KnownType(Carried(ts[..i])[k])
      invariant out.blobs == CarriedBlobs(Carried(ts[..i]), data)
    {
      var t := ts[i];
      CarriedStep(ts, i);
      CarriedPrefix(ts, i + 1);
      if !IsProjection(t.name) {
        var size := CountBytes(t.ne, t.ty);
        if size.None? {
          ghost var k := |Carried(ts[..i])|;
          assert Carried(ts[..i + 1])[k] == t;
          assert Carried(ts)[k] == t;
          return false;
        }
        CarriedBlobsSnoc(Carried(ts[..i]), t, data);
        out.Place(Renamed(t.name), t.ne, t.ty, Slice(data, t.off, size.value));
      }
    }
    assert ts[..|ts|] == ts;
    ok := true;
  }

  method MergeProjections(e: Tensor, h: Tensor, data: Bytes) returns (b: Blob)
    requires Mergeable(e, h)
    ensures b == MergedBlob(e, h, data)
  {
    var m := e.ne[1];
    var eb := CountBytes(e.ne, e.ty);
    var hb := CountBytes(h.ne, h.ty);
    var rb, rb2 := RowBytes(eb.value, m), RowBytes(hb.value, m);
    var merged := MergeRows(Slice(data, e.off, eb.value), Slice(data, h.off, hb.value), rb, rb2, m);
    return Blob(EH_PROJ, [e.ne[0] * 2, m], e.ty, merged);
  }

  lemma PlacedBlobs(ts: seq<Tensor>, data: Bytes, e: Tensor, h: Tensor, blobs: seq<Blob>, b: Blob)
    requires Lookup(ts, FC_EMBD) == Some(e) && Lookup(ts, FC_HIDDEN) == Some(h) && Mergeable(e, h)
    requires forall i :: 0 <= i < |Carried(ts)| ==> KnownType(Carried(ts)[i])
    requires b == MergedBlob(e, h, data) && blobs == CarriedBlobs(Carried(ts), data) + [b]
    ensures OutputBlobs(ts, data) == Some(blobs)
  {}

  /** From the tensors read to the tensors placed. */
  method ConvertTensors(ts: seq<Tensor>, data: Bytes, align: int) returns (r: Option<(seq<Tensor>, Bytes)>)
    requires align > 0
    ensures var blobs := OutputBlobs(ts, data);
            r == if blobs.None? then None else Some((PlacedTensors(blobs.value, align), PlacedData(blobs.value, align)))
  {
    var e := FindByName(ts, FC_EMBD);
    if e.None? { return None; }
    var h := FindByName(ts, FC_HIDDEN);
    if h.None? { return None; }
    var out := new Allocator(align);
    var ok := CarryAll(ts, data, out);
    if !ok || !Mergeable(e.value, h.value) { return None; }
    var b := MergeProjections(e.value, h.value, data);
    out.Place(b.name, b.ne, b.ty, b.bytes);
    PlacedBlobs(ts, data, e.value, h.value, out.blobs, b);
    return Some((out.tensors, out.data));
  }

  /** The header rebuilt, and the data behind it. */
  method WriteOut(h: Header, data: Bytes) returns (r: Bytes)
    requires HeaderFits(h) && Alignment(h.entries) > 0
    ensures r == WriteFile(h, data)
  {
    var head := BuildHeader(h);
    ghost var unpadded := WriteHeader(h);
    Concat3(unpadded, Zeros(Padding(|unpadded|, Alignment(h.entries))), data);
    return head + data;
  }

  /** The script, from the bytes of one file to the bytes of the other. */
  method Convert(file: Bytes) returns (r: Option<Bytes>)
    ensures r == ConvertedFile(file)
  {
    ReadFileAligned(file);
    var input := ReadGguf(file);
    if input.None? { return None; }
    var (header, data) := input.value;
    var align := FindAlignment(header.entries);
    var placed := ConvertTensors(header.tensors, data, align);
    if placed.None? { return None; }
    var header' := header.(tensors := placed.value.0);
    if !HeaderFits(header') { return None; }
    var out := WriteOut(header', placed.value.1);
    return Some(out);
  }

  /** Reading the converted file gives the source's metadata and the placed tensors. */
  lemma ConvertedReadsBack(file: Bytes)
    requires ConvertedFile(file).Some?
    ensures Alignment(ReadFile(file).value.0.entries) > 0
    ensures ReadFile(ConvertedFile(file).value) == Converted(ReadFile(file).value.0, ReadFile(file).value.1)
  {
    ReadFileAligned(file);
    var (h, data) := ReadFile(file).value;
    var (h', data') := Converted(h, data).value;
    FileRoundTrip(h', data');
  }

  /** What conversion asks of a file: both projections, known types for all other tensors, two equal Q8_0 shapes
      with rows, and numbers that still fit their fields: the doubled row length and the last offset. */
  predicate Convertible(h: Header, data: Bytes)
    requires Alignment(h.entries) > 0
  {
    var e, hid, carried, align := Lookup(h.tensors, FC_EMBD), Lookup(h.tensors, FC_HIDDEN), Carried(h.tensors),
        Alignment(h.entries);
    && e.Some? && hid.Some?
    && (forall i :: 0 <= i < |carried| ==> KnownType(carried[i]))
    && e.value.ty == Q8_0 && hid.value.ty == Q8_0
    && |e.value.ne| >= 2 && hid.value.ne == [e.value.ne[0], e.value.ne[1]] && e.value.ne[1] > 0
    && e.value.ne[0] * 2 < Pow256(8)
    && Aligned(PlacedData(CarriedBlobs(carried, data), align), align) < Pow256(8)
  }

  /** Conversion of a readable file fails for nothing else. */
  lemma ConvertsIff(file: Bytes)
    requires ReadFile(file).Some?
    ensures var (h, data) := ReadFile(file).value;
            Alignment(h.entries) > 0 && (ConvertedFile(file).Some? <==> Convertible(h, data))
  {
    ReadFileAligned(file);
    var (h, data) := ReadFile(file).value;
    if Converted(h, data).Some? {
      TableNotLonger(h, data);
      TableFitsIff(h, data);
    }
  }

  lemma RenamedFits(name: Bytes)
    requires |name| < Pow256(8)
    ensures |Renamed(name)| < Pow256(8) && |EH_PROJ| < Pow256(8)
  {
    assert Pow256(8) == 0x1_0000_0000_0000_0000;
  }

  /** The placed tensors before the last keep everything but their offset, which is smaller than the last one. */
  lemma CarriedTensorFits(blobs: seq<Blob>, align: int, k: nat, t: Tensor, data: Bytes)
    requires align > 0 && k < |blobs| - 1 && KnownType(t) && blobs[k] == CarriedBlob(t, data) && TensorFits(t)
    requires PlacedTensors(blobs, align)[|blobs| - 1].off < Pow256(8)
    ensures TensorFits(PlacedTensors(blobs, align)[k])
  {
    var ts := PlacedTensors(blobs, align);
    PlacementSound(blobs, align);
    assert PlacedAt(blobs, ts, PlacedData(blobs, align), align, k);
    ExtentsDisjoint(blobs, ts, PlacedData(blobs, align), align, k, |blobs| - 1);
    RenamedFits(t.name);
  }

  /** placed is where the carried tensors of ts and one more blob are put. */
  ghost predicate PlacesCarried(ts: seq<Tensor>, data: Bytes, align: int, merged: Blob, placed: seq<Tensor>) {
    && align > 0 && (forall i :: 0 <= i < |Carried(ts)| ==> KnownType(Carried(ts)[i]))
    && placed == PlacedTensors(CarriedBlobs(Carried(ts), data) + [merged], align)
  }

  /** If the last tensor fits, so do those before it. */
  lemma CarriedFitsAt(ts: seq<Tensor>, data: Bytes, align: int, merged: Blob, placed: seq<Tensor>, k: nat)
    requires TensorsFit(ts) && PlacesCarried(ts, data, align, merged, placed) && k < |placed| - 1
    requires TensorFits(placed[|placed| - 1])
    ensures TensorFits(placed[k])
  {
    var t := Carried(ts)[k];
    assert TensorFits(t) by { CarriedIn(ts, k); }
    CarriedTensorFits(CarriedBlobs(Carried(ts), data) + [merged], align, k, t, data);
  }

  lemma {:induction false} CarriedFitUpTo(ts: seq<Tensor>, data: Bytes, align: int, merged: Blob,
      placed: seq<Tensor>, n: nat)
    requires TensorsFit(ts) && PlacesCarried(ts, data, align, merged, placed) && n < |placed|
    requires TensorFits(placed[|placed| - 1])
    ensures TensorsFit(placed[..n])
  {
    if n > 0 {
      CarriedFitUpTo(ts, data, align, merged, placed, n - 1);
      CarriedFitsAt(ts, data, align, merged, placed, n - 1);
      assert placed[..n] == placed[..n - 1] + [placed[n - 1]];
    }
  }

  lemma CarriedFit(ts: seq<Tensor>, data: Bytes, align: int, merged: Blob, placed: seq<Tensor>)
    requires TensorsFit(ts) && PlacesCarried(ts, data, align, merged, placed)
    ensures placed != [] && (TensorsFit(placed) <==> TensorFits(placed[|placed| - 1]))
  {
    var n := |placed| - 1;
    if TensorFits(placed[n]) {
      CarriedFitUpTo(ts, data, align, merged, placed, n);
      assert placed == placed[..n] + [placed[n]];
    }
  }

  lemma LookupFits(ts: seq<Tensor>, name: Bytes)
    requires TensorsFit(ts) && Lookup(ts, name).Some?
    ensures TensorFits(Lookup(ts, name).value)
  {
    LookupFinds(ts, name);
  }

  lemma PlacedFitIff(ts: seq<Tensor>, data: Bytes, align: int, e: Tensor, hid: Tensor, placed: seq<Tensor>)
    requires Mergeable(e, hid) && TensorFits(e) && TensorsFit(ts)
    requires PlacesCarried(ts, data, align, MergedBlob(e, hid, data), placed)
    ensures TensorsFit(placed) <==>
              && e.ne[0] * 2 < Pow256(8)
              && Aligned(PlacedData(CarriedBlobs(Carried(ts), data), align), align) < Pow256(8)
  {
    var front, merged := CarriedBlobs(Carried(ts), data), MergedBlob(e, hid, data);
    assert (front + [merged])[..|front + [merged]| - 1] == front;
    MergedTensorFitsIff(front + [merged], align, e, hid, data);
    CarriedFit(ts, data, align, merged, placed);
  }

  lemma TableFitsIff(h: Header, data: Bytes)
    requires HeaderFits(h) && Alignment(h.entries) > 0 && Converted(h, data).Some?
    ensures TensorsFit(Converted(h, data).value.0.tensors) <==> Convertible(h, data)
  {
    var e, hid := Lookup(h.tensors, FC_EMBD).value, Lookup(h.tensors, FC_HIDDEN).value;
    LookupFits(h.tensors, FC_EMBD);
    PlacedFitIff(h.tensors, data, Alignment(h.entries), e, hid, Converted(h, data).value.0.tensors);
  }

  lemma MergedTensorFitsIff(blobs: seq<Blob>, align: int, e: Tensor, hid: Tensor, data: Bytes)
    requires align > 0 && blobs != [] && Mergeable(e, hid) && blobs[|blobs| - 1] == MergedBlob(e, hid, data)
             && TensorFits(e)
    ensures TensorFits(PlacedTensors(blobs, align)[|blobs| - 1]) <==>
              e.ne[0] * 2 < Pow256(8) && Aligned(PlacedData(blobs[..|blobs| - 1], align), align) < Pow256(8)
  {
    RenamedFits([]);
    var off := Aligned(PlacedData(blobs[..|blobs| - 1], align), align);
    MatrixFitsIff(EH_PROJ, e.ne[0] * 2, e.ne[1], Q8_0, off);
    assert PlacedTensors(blobs, align)[|blobs| - 1] == Tensor(EH_PROJ, [e.ne[0] * 2, e.ne[1]], Q8_0, off);
  }

  lemma MatrixFitsIff(name: Bytes, k: nat, m: nat, ty: nat, off: nat)
    requires |name| < Pow256(8) && m < Pow256(8) && ty < 256
    ensures TensorFits(Tensor(name, [k, m], ty, off)) <==> k < Pow256(8) && off < Pow256(8)
  {
    var t := Tensor(name, [k, m], ty, off);
    assert Pow256(4) == 0x1_0000_0000;
    assert t.ne[0] == k && t.ne[1] == m;
  }

  lemma {:induction false} CarriedIn(ts: seq<Tensor>, k: nat)
    requires k < |Carried(ts)|
    ensures Carried(ts)[k] in ts
  {
    if k < |Carried(ts[..|ts| - 1])| {
      CarriedIn(ts[..|ts| - 1], k);
    }
  }

  lemma TableNotLonger(h: Header, data: Bytes)
    requires Alignment(h.entries) > 0 && Converted(h, data).Some?
    ensures |Converted(h, data).value.0.tensors| <= |h.tensors|
  {
    LookupFinds(h.tensors, FC_EMBD);
    var i :| 0 <= i < |h.tensors| && h.tensors[i].name == FC_EMBD;
    CarriedShorter(h.tensors, i);
  }

  lemma {:induction false} CarriedNotLonger(ts: seq<Tensor>)
    ensures |Carried(ts)| <= |ts|
  {
    if ts != [] {
      CarriedNotLonger(ts[..|ts| - 1]);
    }
  }

  lemma {:induction false} CarriedShorter(ts: seq<Tensor>, i: nat)
    requires i < |ts| && IsProjection(ts[i].name)
    ensures |Carried(ts)| < |ts|
  {
    if i < |ts| - 1 {
      CarriedShorter(ts[..|ts| - 1], i);
    } else {
      CarriedNotLonger(ts[..|ts| - 1]);
    }
  }
}
