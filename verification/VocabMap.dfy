/**
 The trimmed vocabulary: d2t maps a draft row to its target token, t2d a target token to its draft row.
 make-t2d-head.py inverts the one into the other and rewrites the file; d2t-inspect.py counts.

 The draft's logits are spread over the target vocabulary either by scattering them through d2t or by
 gathering them through t2d, with one extra row of minus infinity for the tokens that the draft lacks.
 */
module VocabMap {
  import opened Helpers
  import opened Gguf
  import opened Placement
  import opened HeadConversion

  // ---- the inverse map

  /** The last row mapped to v, or the sentinel. */
  function LastRow(d2t: seq<int>, v: int, sentinel: nat): nat {
    if d2t == [] then sentinel
    else if d2t[|d2t| - 1] == v then |d2t| - 1
    else LastRow(d2t[..|d2t| - 1], v, sentinel)
  }

  function T2d(d2t: seq<int>, nVocab: nat): (r: seq<nat>)
    ensures |r| == nVocab
  {
    seq(nVocab, v requires 0 <= v < nVocab => LastRow(d2t, v, |d2t|))
  }

  /** d2t[t2d[v]] is v for every mapped token, the last such row if there are several; the sentinel stands for
      no row at all. */
  lemma {:induction false} LastRowSound(d2t: seq<int>, v: int, sentinel: nat)
    requires sentinel >= |d2t|
    ensures var i := LastRow(d2t, v, sentinel);
            if i == sentinel then forall j :: 0 <= j < |d2t| ==> d2t[j] != v
            else i < |d2t| && d2t[i] == v && forall j :: i < j < |d2t| ==> d2t[j] != v
  {
    if d2t != [] && d2t[|d2t| - 1] != v {
      LastRowSound(d2t[..|d2t| - 1], v, sentinel);
    }
  }

  lemma LastRowIs(d2t: seq<int>, v: int, i: nat)
    requires i < |d2t| && d2t[i] == v && forall j :: i < j < |d2t| ==> d2t[j] != v
    ensures LastRow(d2t, v, |d2t|) == i
  {
    LastRowSound(d2t, v, |d2t|);
  }

  /** The inversion loop, in place. */
  method Invert(d2t: seq<int>, nVocab: nat) returns (t2d: array<nat>)
    ensures t2d[..] == T2d(d2t, nVocab)
  {
    var nDraft := |d2t|;
    t2d := new nat[nVocab](_ => nDraft);
    for i := 0 to nDraft
      invariant forall v :: 0 <= v < nVocab ==> t2d[v] == LastRow(d2t[..i], v, nDraft)
    {
      assert d2t[..i + 1][..i] == d2t[..i];
      var v := d2t[i];
      if 0 <= v < nVocab {
        t2d[v] := i;
      }
    }
    assert d2t[..nDraft] == d2t;
  }

  // ---- gather and scatter

  /** ggml_get_rows: one row of the extended logits per target token. */
  function Gather<T>(ext: seq<T>, t2d: seq<nat>): (r: seq<T>)
    requires forall v :: 0 <= v < |t2d| ==> t2d[v] < |ext|
    ensures |r| == |t2d|
  {
    seq(|t2d|, v requires 0 <= v < |t2d| => ext[t2d[v]])
  }

  /** ggml_set_rows: each draft row written to its token, in order, over a background of minus infinity. */
  function Scatter<T>(d2t: seq<int>, logits: seq<T>, nVocab: nat, low: T): (r: seq<T>)
    requires |d2t| <= |logits|
    ensures |r| == nVocab
  {
    if d2t == [] then seq(nVocab, _ => low) else
      var n := |d2t| - 1;
      var r := Scatter(d2t[..n], logits, nVocab, low);
      if 0 <= d2t[n] < nVocab then r[d2t[n] := logits[n]] else r
  }

  lemma {:induction false} ScatterAt<T>(d2t: seq<int>, logits: seq<T>, nVocab: nat, low: T, v: nat)
    requires |d2t| <= |logits| && v < nVocab
    ensures LastRow(d2t, v, |logits|) <= |logits|
    ensures Scatter(d2t, logits, nVocab, low)[v] == (logits + [low])[LastRow(d2t, v, |logits|)]
  {
    if d2t != [] {
      ScatterAt(d2t[..|d2t| - 1], logits, nVocab, low, v);
    }
  }

  lemma InverseInRange(d2t: seq<int>, nVocab: nat)
    ensures forall v :: 0 <= v < nVocab ==> T2d(d2t, nVocab)[v] <= |d2t|
  {
    forall v | 0 <= v < nVocab ensures T2d(d2t, nVocab)[v] <= |d2t| {
      LastRowSound(d2t, v, |d2t|);
    }
  }

  /** Gathering through the inverse is scattering through the map: for every map, with duplicates and rows out of
      range, and every logits. */
  lemma GatherIsScatter<T>(d2t: seq<int>, logits: seq<T>, nVocab: nat, low: T)
    requires |logits| == |d2t|
    ensures forall v :: 0 <= v < nVocab ==> T2d(d2t, nVocab)[v] < |logits + [low]|
    ensures Gather(logits + [low], T2d(d2t, nVocab)) == Scatter(d2t, logits, nVocab, low)
  {
    InverseInRange(d2t, nVocab);
    forall v | 0 <= v < nVocab
      ensures Gather(logits + [low], T2d(d2t, nVocab))[v] == Scatter(d2t, logits, nVocab, low)[v]
    {
      ScatterAt(d2t, logits, nVocab, low, v);
    }
  }

  /** No two rows name the same token of the vocabulary. */
  ghost predicate Injective(d2t: seq<int>, nVocab: nat) {
    forall i, j :: 0 <= i < j < |d2t| && 0 <= d2t[i] < nVocab ==> d2t[i] != d2t[j]
  }

  /** Every row keeps its own place in the vocabulary exactly if no two rows share a token; then the order in which
      rows are written does not matter. */
  lemma EveryRowKeptIff(d2t: seq<int>, nVocab: nat)
    ensures Injective(d2t, nVocab) <==>
              forall i: nat :: i < |d2t| && 0 <= d2t[i] < nVocab ==> T2d(d2t, nVocab)[d2t[i]] == i
  {
    if Injective(d2t, nVocab) {
      forall i: nat | i < |d2t| && 0 <= d2t[i] < nVocab ensures T2d(d2t, nVocab)[d2t[i]] == i {
        LastRowIs(d2t, d2t[i], i);
      }
    }
    if forall i: nat :: i < |d2t| && 0 <= d2t[i] < nVocab ==> T2d(d2t, nVocab)[d2t[i]] == i {
      forall i, j | 0 <= i < j < |d2t| && 0 <= d2t[i] < nVocab ensures d2t[i] != d2t[j] {
        assert T2d(d2t, nVocab)[d2t[i]] == i;
        if 0 <= d2t[j] < nVocab {
          assert T2d(d2t, nVocab)[d2t[j]] == j;
        }
      }
    }
  }

  /** For an injective map the vocabulary vector is the draft's logits at their tokens and minus infinity elsewhere. */
  lemma InjectiveScatter<T>(d2t: seq<int>, logits: seq<T>, nVocab: nat, low: T)
    requires |logits| == |d2t| && Injective(d2t, nVocab)
    ensures var r := Scatter(d2t, logits, nVocab, low);
            && (forall i: nat :: i < |d2t| && 0 <= d2t[i] < nVocab ==> r[d2t[i]] == logits[i])
            && (forall v: nat :: v < nVocab && v !in d2t ==> r[v] == low)
  {
    var r := Scatter(d2t, logits, nVocab, low);
    GatherIsScatter(d2t, logits, nVocab, low);
    EveryRowKeptIff(d2t, nVocab);
    forall i: nat | i < |d2t| && 0 <= d2t[i] < nVocab ensures r[d2t[i]] == logits[i] {
      assert T2d(d2t, nVocab)[d2t[i]] == i;
      assert r[d2t[i]] == (logits + [low])[i];
    }
    forall v: nat | v < nVocab && v !in d2t ensures r[v] == low {
      LastRowSound(d2t, v, |d2t|);
      assert r[v] == (logits + [low])[|d2t|];
    }
  }

  // ---- the two counts of mapped tokens

  /** The tokens of the vocabulary that some row names. */
  ghost function Tokens(d2t: seq<int>, nVocab: nat): set<int> {
    set i | 0 <= i < |d2t| && 0 <= d2t[i] < nVocab :: d2t[i]
  }

  /** Rows within the vocabulary, which d2t-inspect.py counts as mapped. */
  function RowsInRange(d2t: seq<int>, nVocab: nat): nat {
    if d2t == [] then 0 else
      RowsInRange(d2t[..|d2t| - 1], nVocab) + if 0 <= d2t[|d2t| - 1] < nVocab then 1 else 0
  }

  method CountRows(d2t: seq<int>, nVocab: nat) returns (mapped: nat)
    ensures mapped == RowsInRange(d2t, nVocab)
  {
    mapped := 0;
    for i := 0 to |d2t|
      invariant mapped == RowsInRange(d2t[..i], nVocab)
    {
      assert d2t[..i + 1][..i] == d2t[..i];
      if 0 <= d2t[i] < nVocab {
        mapped := mapped + 1;
      }
    }
    assert d2t[..|d2t|] == d2t;
  }

  /** The entries of t2d that are not the sentinel, which make-t2d-head.py counts. */
  method CountMapped(d2t: seq<int>, nVocab: nat) returns (mapped: nat)
    ensures mapped == |Tokens(d2t, nVocab)|
  {
    var t2d := T2d(d2t, nVocab);
    mapped := 0;
    for v := 0 to nVocab
      invariant mapped == |set u | u in Tokens(d2t, nVocab) && u < v|
    {
      TokensBelow(d2t, nVocab, v);
      if t2d[v] != |d2t| {
        mapped := mapped + 1;
      }
    }
    assert (set u | u in Tokens(d2t, nVocab) && u < nVocab) == Tokens(d2t, nVocab);
  }

  lemma TokensBelow(d2t: seq<int>, nVocab: nat, v: nat)
    requires v < nVocab
    ensures |set u | u in Tokens(d2t, nVocab) && u < v + 1| ==
            |set u | u in Tokens(d2t, nVocab) && u < v| + if LastRow(d2t, v, |d2t|) != |d2t| then 1 else 0
  {
    var all := Tokens(d2t, nVocab);
    var below, upTo := set u | u in all && u < v, set u | u in all && u < v + 1;
    LastRowSound(d2t, v, |d2t|);
    assert v in all <==> LastRow(d2t, v, |d2t|) != |d2t|;
    assert upTo == if v in all then below + {v as int} else below;
  }

  lemma TokensSnoc(d2t: seq<int>, nVocab: nat, v: int)
    ensures Tokens(d2t + [v], nVocab) == if 0 <= v < nVocab then Tokens(d2t, nVocab) + {v} else Tokens(d2t, nVocab)
  {
    forall t | t in Tokens(d2t, nVocab) ensures t in Tokens(d2t + [v], nVocab) {
      var i :| 0 <= i < |d2t| && d2t[i] == t;
      assert (d2t + [v])[i] == t;
    }
    assert (d2t + [v])[|d2t|] == v;
  }

  lemma InjectiveSnoc(d2t: seq<int>, nVocab: nat, v: int)
    ensures Injective(d2t + [v], nVocab) <==> Injective(d2t, nVocab) && v !in Tokens(d2t, nVocab)
  {
    var all := d2t + [v];
    assert forall i :: 0 <= i < |d2t| ==> all[i] == d2t[i];
    assert all[|d2t|] == v;
    if Injective(all, nVocab) {
      forall i | 0 <= i < |d2t| && 0 <= v < nVocab ensures d2t[i] != v {
        assert all[i] == d2t[i];
      }
    }
  }

  /** The inspector's count is never less than the number of mapped tokens, and equals it exactly if no two rows
      share a token: with duplicates it reports too many mapped and too few sentinels. */
  lemma {:induction false} CountsAgreeIff(d2t: seq<int>, nVocab: nat)
    ensures |Tokens(d2t, nVocab)| <= RowsInRange(d2t, nVocab)
    ensures |Tokens(d2t, nVocab)| == RowsInRange(d2t, nVocab) <==> Injective(d2t, nVocab)
  {
    if d2t == [] {
      assert Tokens(d2t, nVocab) == {};
    } else {
      var init, v := d2t[..|d2t| - 1], d2t[|d2t| - 1];
      CountsAgreeIff(init, nVocab);
      assert d2t == init + [v];
      TokensSnoc(init, nVocab, v);
      InjectiveSnoc(init, nVocab, v);
    }
  }

  // ---- make-t2d-head.py, from file to file

  const D2T := Ascii("d2t")
  const N_VOCAB: nat := 248320
  const I32: nat := 26
  const I64: nat := 27
  const I32_LIMIT: nat := 0x8000_0000

  /** Entry i of an I64 or an I32 tensor at this offset. */
  function Int64At(data: Bytes, off: nat, i: nat): int
  { Signed(Unpack(Slice(data, off + 8 * i, 8)), 8) }

  function Int32At(data: Bytes, off: nat, i: nat): int
  { Signed(Unpack(Slice(data, off + 4 * i, 4)), 4) }

  function Signed(n: nat, k: nat): int { if 2 * n < Pow256(k) then n else n - Pow256(k) }

  function Int64s(data: Bytes, off: nat, n: nat): seq<int> { seq(n, i requires 0 <= i < n => Int64At(data, off, i)) }

  function Int32s(data: Bytes, off: nat, n: nat): seq<int> { seq(n, i requires 0 <= i < n => Int32At(data, off, i)) }

  /** An entry that lies within the data is read from its own bytes, as the number of its range that is congruent
      to them. */
  lemma EntriesAreSigned(data: Bytes, off: nat, i: nat)
    ensures off + 8 * i + 8 <= |data| ==>
              var n, v := Unpack(data[off + 8 * i..off + 8 * i + 8]), Int64At(data, off, i);
              && (v == n || v == n - 0x1_0000_0000_0000_0000)
              && -0x8000_0000_0000_0000 <= v < 0x8000_0000_0000_0000
    ensures off + 4 * i + 4 <= |data| ==>
              var n, v := Unpack(data[off + 4 * i..off + 4 * i + 4]), Int32At(data, off, i);
              && (v == n || v == n - 0x1_0000_0000)
              && -0x8000_0000 <= v < 0x8000_0000
  {
    Powers();
    UnpackBound(Slice(data, off + 8 * i, 8));
    UnpackBound(Slice(data, off + 4 * i, 4));
  }

  function FirstNamed(ts: seq<Tensor>, name: Bytes): Option<Tensor> {
    if ts == [] then None else if ts[0].name == name then Some(ts[0]) else FirstNamed(ts[1..], name)
  }

  lemma {:induction false} FirstNamedIs(ts: seq<Tensor>, name: Bytes, i: nat)
    requires i <= |ts| && (i < |ts| ==> ts[i].name == name) && forall j :: 0 <= j < i ==> ts[j].name != name
    ensures FirstNamed(ts, name) == if i < |ts| then Some(ts[i]) else None
    decreases i
  {
    if i > 0 {
      FirstNamedIs(ts[1..], name, i - 1);
    }
  }

  /** The forward map as the script reads it: a missing tensor, another type, a short file, an empty map and a first
      entry that cannot index the new table all stop it. */
  function ForwardMap(ts: seq<Tensor>, data: Bytes): Option<seq<int>> {
    var d :- FirstNamed(ts, D2T);
    if d.ty != I64 || d.ne == [] || d.ne[0] == 0 || d.off + 8 * d.ne[0] > |data| then None else
      var forward := Int64s(data, d.off, d.ne[0]);
      if 0 - N_VOCAB <= forward[0] < N_VOCAB then Some(forward) else None
  }

  /** When there is a forward map, and what it holds: the tensor is the first named d2t, an I64 list of at least one
      entry wholly within the data, and the first entry is one that Python can index the new table with. */
  lemma ForwardMapIs(ts: seq<Tensor>, data: Bytes, k: nat)
    requires k <= |ts| && (k < |ts| ==> ts[k].name == Ascii("d2t"))
    requires forall j :: 0 <= j < k ==> ts[j].name != Ascii("d2t")
    ensures ForwardMap(ts, data).Some? <==>
              && k < |ts| && ts[k].ty == 27 && ts[k].ne != [] && ts[k].ne[0] > 0
              && ts[k].off + 8 * ts[k].ne[0] <= |data| && -248320 <= Int64At(data, ts[k].off, 0) < 248320
    ensures ForwardMap(ts, data).Some? ==>
              var forward := ForwardMap(ts, data).value;
              |forward| == ts[k].ne[0] && forall i :: 0 <= i < |forward| ==> forward[i] == Int64At(data, ts[k].off, i)
  {
    FirstNamedIs(ts, D2T, k);
  }

  predicate Packable(t2d: seq<nat>) { forall v :: 0 <= v < |t2d| ==> t2d[v] < I32_LIMIT }

  function PackAll(xs: seq<nat>): (r: Bytes)
    ensures |r| == 4 * |xs|
  {
    if xs == [] then [] else PackAll(xs[..|xs| - 1]) + Pack(xs[|xs| - 1], 4)
  }

  predicate Replaceable(t: Tensor) { t.name == D2T || KnownType(t) }

  function NewBlob(t: Tensor, data: Bytes, t2d: seq<nat>): Blob
    requires Replaceable(t)
  {
    if t.name == D2T then Blob(t.name, [N_VOCAB], I32, PackAll(t2d)) else Blob(t.name, t.ne, t.ty, Content(t, data))
  }

  function NewBlobs(ts: seq<Tensor>, data: Bytes, t2d: seq<nat>): (r: seq<Blob>)
    requires forall i :: 0 <= i < |ts| ==> Replaceable(ts[i])
    ensures |r| == |ts|
  {
    seq(|ts|, i requires 0 <= i < |ts| => NewBlob(ts[i], data, t2d))
  }

  function Rewritten(h: Header, data: Bytes): Option<(Header, Bytes)>
    requires Alignment(h.entries) > 0
  {
    var d2t :- ForwardMap(h.tensors, data);
    var align := Alignment(h.entries);
    var t2d := T2d(d2t, N_VOCAB);
    if !Packable(t2d) || exists i :: 0 <= i < |h.tensors| && !Replaceable(h.tensors[i]) then None else
      var blobs := NewBlobs(h.tensors, data, t2d);
      Some((h.(tensors := PlacedTensors(blobs, align)), PlacedData(blobs, align)))
  }

  function RewrittenFile(file: Bytes): Option<Bytes> {
    ReadFileAligned(file);
    var (h, data) :- ReadFile(file);
    var (h', data') :- Rewritten(h, data);
    if HeaderFits(h') then Some(WriteFile(h', data')) else None
  }

  method FindFirst(ts: seq<Tensor>, name: Bytes) returns (r: Option<Tensor>)
    ensures r == FirstNamed(ts, name)
  {
    for i := 0 to |ts|
      invariant FirstNamed(ts, name) == FirstNamed(ts[i..], name)
    {
      if ts[i].name == name {
        return Some(ts[i]);
      }
    }
    return None;
  }

  method ReadForward(ts: seq<Tensor>, data: Bytes) returns (r: Option<seq<int>>)
    ensures r == ForwardMap(ts, data)
  {
    var d := FindFirst(ts, D2T);
    if d.None? || d.value.ty != I64 || d.value.ne == [] { return None; }
    var n := d.value.ne[0];
    if n == 0 || d.value.off + 8 * n > |data| { return None; }
    var d2t := Int64s(data, d.value.off, n);
    return if 0 - N_VOCAB <= d2t[0] < N_VOCAB then Some(d2t) else None;
  }

  method Replacement(t: Tensor, data: Bytes, t2d: seq<nat>, packed: Bytes) returns (r: Option<Blob>)
    requires packed == PackAll(t2d)
    ensures r == if Replaceable(t) then Some(NewBlob(t, data, t2d)) else None
  {
    if t.name == D2T {
      return Some(Blob(t.name, [N_VOCAB], I32, packed));
    }
    var size := CountBytes(t.ne, t.ty);
    if size.None? {
      return None;
    }
    return Some(Blob(t.name, t.ne, t.ty, Slice(data, t.off, size.value)));
  }

  lemma NewBlobsStep(ts: seq<Tensor>, data: Bytes, t2d: seq<nat>, i: nat)
    requires i < |ts| && forall k :: 0 <= k <= i ==> Replaceable(ts[k])
    ensures NewBlobs(ts[..i + 1], data, t2d) == NewBlobs(ts[..i], data, t2d) + [NewBlob(ts[i], data, t2d)]
  {}

  method ReplaceAll(ts: seq<Tensor>, data: Bytes, t2d: seq<nat>, out: Allocator) returns (ok: bool)
    requires out.Valid() && out.blobs == []
    modifies out
    ensures out.Valid()
    ensures ok == forall i :: 0 <= i < |ts| ==> Replaceable(ts[i])
    ensures ok ==> out.blobs == NewBlobs(ts, data, t2d)
  {
    var packed := PackAll(t2d);
    for i := 0 to |ts|
      invariant out.Valid()
      invariant forall k :: 0 <= k < i ==> Replaceable(ts[k])
      invariant out.blobs == NewBlobs(ts[..i], data, t2d)
    {
      var b := Replacement(ts[i], data, t2d, packed);
      if b.None? {
        assert !Replaceable(ts[i]);
        return false;
      }
      out.Place(b.value.name, b.value.ne, b.value.ty, b.value.bytes);
      NewBlobsStep(ts, data, t2d, i);
    }
    assert ts[..|ts|] == ts;
    ok := true;
  }

  method RewriteTensors(h: Header, data: Bytes) returns (r: Option<(Header, Bytes)>)
    requires Alignment(h.entries) > 0
    ensures r == Rewritten(h, data)
  {
    var d2t := ReadForward(h.tensors, data);
    if d2t.None? { return None; }
    var inverse := Invert(d2t.value, N_VOCAB);
    var t2d := inverse[..];
    if !Packable(t2d) { return None; }
    var align := FindAlignment(h.entries);
    var out := new Allocator(align);
    var ok := ReplaceAll(h.tensors, data, t2d, out);
    return if ok then Some((h.(tensors := out.tensors), out.data)) else None;
  }

  method MakeT2d(file: Bytes) returns (r: Option<Bytes>)
    ensures r == RewrittenFile(file)
  {
    ReadFileAligned(file);
    var input := ReadGguf(file);
    if input.None? { return None; }
    var (h, data) := input.value;
    var result := RewriteTensors(h, data);
    if result.None? || !HeaderFits(result.value.0) { return None; }
    var out := WriteOut(result.value.0, result.value.1);
    return Some(out);
  }

  // ---- what the rewritten file holds

  lemma {:induction false} PackAllPrefix(xs: seq<nat>, v: nat)
    requires v <= |xs|
    ensures PackAll(xs[..v]) <= PackAll(xs)
  {
    if v < |xs| {
      PackAllPrefix(xs[..|xs| - 1], v);
      assert xs[..|xs| - 1][..v] == xs[..v];
    } else {
      assert xs[..v] == xs;
    }
  }

  lemma PackAllStep(xs: seq<nat>, v: nat)
    requires v < |xs|
    ensures PackAll(xs[..v + 1]) == PackAll(xs[..v]) + Pack(xs[v], 4)
  {
    assert xs[..v + 1][..v] == xs[..v];
  }

  lemma PackAllAt(xs: seq<nat>, v: nat)
    requires v < |xs|
    ensures Slice(PackAll(xs), 4 * v, 4) == Pack(xs[v], 4)
  {
    var before, entry := PackAll(xs[..v]), Pack(xs[v], 4);
    PackAllPrefix(xs, v + 1);
    PackAllStep(xs, v);
    assert |before| == 4 * v && |entry| == 4;
    SliceWithinPrefix(before, entry, PackAll(xs));
  }

  lemma Int32OfPack(n: nat)
    requires n < I32_LIMIT
    ensures Signed(Unpack(Pack(n, 4)), 4) == n
  {
    assert Pow256(4) == 0x1_0000_0000;
    UnpackPack(n, 4);
  }

  lemma PackedEntry(data: Bytes, off: nat, n: nat, packed: Bytes, at: nat, x: nat)
    requires off + n <= |data| && at + 4 <= n && Slice(data, off, n) == packed
    requires Slice(packed, at, 4) == Pack(x, 4) && x < I32_LIMIT
    ensures Signed(Unpack(Slice(data, off + at, 4)), 4) == x
  {
    SliceOfSlice(data, off, n, at, 4);
    Int32OfPack(x);
  }

  /** xs packed in four bytes each. */
  ghost predicate PackedAs(packed: Bytes, xs: seq<nat>) {
    |packed| == 4 * |xs| && forall v :: 0 <= v < |xs| ==> Slice(packed, 4 * v, 4) == Pack(xs[v], 4)
  }

  lemma PackAllPacks(xs: seq<nat>)
    ensures PackedAs(PackAll(xs), xs)
  {
    forall v | 0 <= v < |xs| ensures Slice(PackAll(xs), 4 * v, 4) == Pack(xs[v], 4) {
      PackAllAt(xs, v);
    }
  }

  lemma Int32sAre(data: Bytes, off: nat, xs: seq<nat>)
    requires forall v :: 0 <= v < |xs| ==> Int32At(data, off, v) == xs[v]
    ensures Int32s(data, off, |xs|) == xs
  {}

  lemma PackedReadsBack(data: Bytes, off: nat, packed: Bytes, xs: seq<nat>)
    requires Packable(xs) && PackedAs(packed, xs) && off + |packed| <= |data| && Slice(data, off, |packed|) == packed
    ensures Int32s(data, off, |xs|) == xs
  {
    forall v | 0 <= v < |xs| ensures Int32At(data, off, v) == xs[v] {
      PackedEntry(data, off, |packed|, packed, 4 * v, xs[v]);
    }
    Int32sAre(data, off, xs);
  }

  lemma RewrittenReadsBack(file: Bytes)
    requires RewrittenFile(file).Some?
    ensures Alignment(ReadFile(file).value.0.entries) > 0
    ensures ReadFile(RewrittenFile(file).value) == Rewritten(ReadFile(file).value.0, ReadFile(file).value.1)
  {
    ReadFileAligned(file);
    var (h, data) := ReadFile(file).value;
    var (h', data') := Rewritten(h, data).value;
    FileRoundTrip(h', data');
  }

  /** Tensor i of the rewritten table: a d2t tensor has become the inverse map, any other tensor is described as
      before and keeps its bytes. */
  lemma RewrittenTensor(h: Header, data: Bytes, i: nat)
    requires Alignment(h.entries) > 0 && Rewritten(h, data).Some? && i < |h.tensors|
    ensures ForwardMap(h.tensors, data).Some?
    ensures var (h', data') := Rewritten(h, data).value;
            && |h'.tensors| == |h.tensors|
            && var (t, t') := (h.tensors[i], h'.tensors[i]);
               && t'.name == t.name
               && if t.name == Ascii("d2t") then
                    && t'.ne == [248320] && t'.ty == 26
                    && Int32s(data', t'.off, N_VOCAB) == T2d(ForwardMap(h.tensors, data).value, N_VOCAB)
                  else
                    && t'.ne == t.ne && t'.ty == t.ty && KnownType(t)
                    && Content(t, data) <= data'[Min(t'.off, |data'|)..]
  {
    var align := Alignment(h.entries);
    var t2d := T2d(ForwardMap(h.tensors, data).value, N_VOCAB);
    var blobs := NewBlobs(h.tensors, data, t2d);
    var ts, data' := PlacedTensors(blobs, align), PlacedData(blobs, align);
    PlacementSound(blobs, align);
    assert PlacedAt(blobs, ts, data', align, i);
    if h.tensors[i].name == D2T {
      PackAllPacks(t2d);
      PackedReadsBack(data', ts[i].off, PackAll(t2d), t2d);
    }
  }

  /** Gathering through any d2t tensor of the new file is scattering through the map of the old one. */
  lemma RewrittenGathers<T>(file: Bytes, i: nat, logits: seq<T>, low: T)
    requires RewrittenFile(file).Some? && i < |ReadFile(file).value.0.tensors|
    requires ReadFile(file).value.0.tensors[i].name == D2T
    requires var (h, data) := ReadFile(file).value;
             ForwardMap(h.tensors, data).Some? ==> |logits| == |ForwardMap(h.tensors, data).value|
    ensures var (h, data) := ReadFile(file).value;
            var result := ReadFile(RewrittenFile(file).value);
            && ForwardMap(h.tensors, data).Some? && result.Some? && i < |result.value.0.tensors|
            && var t2d := Int32s(result.value.1, result.value.0.tensors[i].off, N_VOCAB);
               && (forall v :: 0 <= v < |t2d| ==> 0 <= t2d[v] < |logits + [low]|)
               && Gather(logits + [low], t2d) == Scatter(ForwardMap(h.tensors, data).value, logits, N_VOCAB, low)
  {
    var (h, data) := ReadFile(file).value;
    RewrittenReadsBack(file);
    RewrittenTensor(h, data, i);
    GatherIsScatter(ForwardMap(h.tensors, data).value, logits, N_VOCAB, low);
  }
}
