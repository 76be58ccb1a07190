/**
 The GGUF container as the head tools read and write it: little-endian scalars, strings,
 arbitrarily nested arrays, the metadata list, the tensor table, and the aligned data section,
 following the "File Structure" section of the GGUF specification in ggml's documentation.

 Strings are their UTF-8 bytes and floating-point values their bit patterns.
 */
module Gguf {
  import opened Helpers

  // ---- fixed-width integers

  function Pow256(k: nat): (r: nat)
    ensures r > 0
  {
    if k == 0 then 1 else 256 * Pow256(k - 1)
  }

  /** struct.pack of an unsigned integer in k bytes. */
  function Pack(n: nat, k: nat): (r: Bytes)
    ensures |r| == k
    decreases k
  {
    if k == 0 then [] else [n % 256] + Pack(n / 256, k - 1)
  }

  function Unpack(b: Bytes): nat {
    if b == [] then 0 else b[0] + 256 * Unpack(b[1..])
  }

  lemma {:induction false} UnpackPack(n: nat, k: nat)
    requires n < Pow256(k)
    ensures Unpack(Pack(n, k)) == n
    decreases k
  {
    if k > 0 {
      UnpackPack(n / 256, k - 1);
      assert Pack(n, k)[1..] == Pack(n / 256, k - 1);
    }
  }

  lemma DivDiv(n: nat, b: nat)
    requires b > 0
    ensures n / 256 / b == n / (256 * b)
  {
    var q, r := n / 256 / b, n / 256 % b;
    assert q * (256 * b) == 256 * (q * b);
    assert n / 256 == q * b + r;
    QuotientUnique(n, 256 * b, q, 256 * r + n % 256);
  }

  /** Byte i of a packed number is its digit of weight 256 to the i: the lowest comes first. */
  lemma {:induction false} PackIsLittleEndian(n: nat, k: nat, i: nat)
    requires i < k
    ensures Pack(n, k)[i] == n / Pow256(i) % 256
    decreases k
  {
    if i > 0 {
      PackIsLittleEndian(n / 256, k - 1, i - 1);
      DivDiv(n, Pow256(i - 1));
    }
  }

  /** A byte put behind others weighs 256 for each of them. */
  lemma {:induction false} UnpackIsLittleEndian(b: Bytes, x: byte)
    ensures Unpack([]) == 0 && Unpack([x]) == x
    ensures Unpack(b + [x]) == Unpack(b) + x * Pow256(|b|)
  {
    if b == [] {
      assert [] + [x] == [x] && [x][1..] == [];
    } else {
      UnpackIsLittleEndian(b[1..], x);
      assert (b + [x])[1..] == b[1..] + [x];
      assert 256 * (x * Pow256(|b| - 1)) == x * Pow256(|b|);
    }
  }

  /** The weights of the digits, and the two ranges that matter here. */
  lemma Powers()
    ensures Pow256(0) == 1 && forall k: nat :: Pow256(k + 1) == 256 * Pow256(k)
    ensures Pow256(4) == 4294967296 && Pow256(8) == 18446744073709551616
  {
    assert Pow256(2) == 65536 && Pow256(6) == 281474976710656;
  }

  // ---- metadata values

  /** Array items carry the declared element type, which is written back as read. */
  datatype Value = Int(i: int) | Bits(bits: nat) | Bool(b: bool) | Str(s: Bytes) | Arr(et: nat, items: seq<Value>)

  const STRING: nat := 8
  const ARRAY: nat := 9

  predicate IsUnsigned(t: nat) { t in {0, 2, 4, 10} }
  predicate IsSigned(t: nat) { t in {1, 3, 5, 11} }
  predicate IsFloat(t: nat) { t in {6, 12} }
  predicate IsScalar(t: nat) { IsUnsigned(t) || IsSigned(t) || IsFloat(t) || t == 7 }

  /** The struct width of a scalar type. */
  function Width(t: nat): (w: nat)
    requires IsScalar(t)
    ensures w > 0
  {
    if t in {0, 1, 7} then 1 else if t in {2, 3} then 2 else if t in {4, 5, 6} then 4 else 8
  }

  predicate ScalarFits(t: nat, v: Value)
    requires IsScalar(t)
  {
    var m := Pow256(Width(t));
    if IsUnsigned(t) then v.Int? && 0 <= v.i < m
    else if IsSigned(t) then v.Int? && 0 <= 2 * v.i + m && 2 * v.i < m
    else if IsFloat(t) then v.Bits? && v.bits < m
    else v.Bool?
  }

  /** v is a value that the format can store as type t. */
  predicate Fits(t: nat, v: Value)
    decreases v
  {
    if t == STRING then v.Str? && |v.s| < Pow256(8)
    else if t == ARRAY then
      v.Arr? && v.et < Pow256(4) && |v.items| < Pow256(8) && forall x :: x in v.items ==> Fits(v.et, x)
    else IsScalar(t) && ScalarFits(t, v)
  }

  function ScalarBits(t: nat, v: Value): nat
    requires IsScalar(t) && ScalarFits(t, v)
  {
    match v
    case Int(i) => if i < 0 then i + Pow256(Width(t)) else i
    case Bits(bits) => bits
    case Bool(b) => if b then 1 else 0
  }

  function ScalarOf(t: nat, n: nat): Value
    requires IsScalar(t)
  {
    if IsUnsigned(t) then Int(n)
    else if IsSigned(t) then Int(if 2 * n < Pow256(Width(t)) then n else n - Pow256(Width(t)))
    else if IsFloat(t) then Bits(n)
    else Bool(n != 0)
  }

  lemma ScalarRoundTrip(t: nat, v: Value)
    requires IsScalar(t) && ScalarFits(t, v)
    ensures ScalarBits(t, v) < Pow256(Width(t)) && ScalarOf(t, ScalarBits(t, v)) == v
  {
    assert Pow256(1) == 256;
  }

  /** The scalar types by their numbers: how many bytes each takes, and what they mean. A signed number
      is the one of its range that is congruent to its bits. */
  lemma ScalarIs(t: nat, n: nat)
    ensures IsScalar(t) <==> t <= 7 || 10 <= t <= 12
    ensures IsScalar(t) ==> Width(t) == [1, 1, 2, 2, 4, 4, 4, 1, 0, 0, 8, 8, 8][t]
    ensures t in {0, 2, 4, 10} ==> ScalarOf(t, n) == Int(n)
    ensures t in {1, 3, 5, 11} && n < Pow256(Width(t)) ==>
              var m: int := Pow256(Width(t));
              var v := ScalarOf(t, n);
              v.Int? && -m <= 2 * v.i < m && (v.i == n || v.i == n - m)
    ensures t in {6, 12} ==> ScalarOf(t, n) == Bits(n)
    ensures t == 7 ==> ScalarOf(t, n) == Bool(n != 0)
  {}

  function WriteStr(s: Bytes): Bytes {
    Pack(|s|, 8) + s
  }

  function WriteValue(t: nat, v: Value): Bytes
    requires Fits(t, v)
    decreases v, 1
  {
    if t == STRING then WriteStr(v.s)
    else if t == ARRAY then Pack(v.et, 4) + Pack(|v.items|, 8) + WriteItems(v.et, v.items)
    else Pack(ScalarBits(t, v), Width(t))
  }

  function WriteItems(et: nat, items: seq<Value>): Bytes
    requires forall x :: x in items ==> Fits(et, x)
    decreases items, 0
  {
    if items == [] then [] else WriteValue(et, items[0]) + WriteItems(et, items[1..])
  }

  /** struct.unpack of k bytes at the head of s; a short read is an error. */
  function ReadUint(s: Bytes, k: nat): (r: Option<(nat, Bytes)>)
    ensures r.Some? ==> |r.value.1| == |s| - k
  {
    if |s| < k then None else Some((Unpack(s[..k]), s[k..]))
  }

  /** A string whose file is too short is read short, not refused. */
  function ReadStr(s: Bytes): (r: Option<(Bytes, Bytes)>)
    ensures r.Some? ==> |r.value.1| < |s|
  {
    var (n, rest) :- ReadUint(s, 8);
    if n <= |rest| then Some((rest[..n], rest[n..])) else Some((rest, []))
  }

  function ReadValue(s: Bytes, t: nat): (r: Option<(Value, Bytes)>)
    ensures r.Some? ==> |r.value.1| < |s|
    decreases |s|, 0
  {
    if t == STRING then
      var (str, rest) :- ReadStr(s);
      Some((Str(str), rest))
    else if t == ARRAY then
      var (et, s1) :- ReadUint(s, 4);
      var (n, s2) :- ReadUint(s1, 8);
      var (items, rest) :- ReadItems(s2, et, n);
      Some((Arr(et, items), rest))
    else if IsScalar(t) then
      var (n, rest) :- ReadUint(s, Width(t));
      Some((ScalarOf(t, n), rest))
    else None
  }

  function ReadItems(s: Bytes, et: nat, n: nat): (r: Option<(seq<Value>, Bytes)>)
    ensures r.Some? ==> |r.value.1| <= |s|
    decreases |s|, 1
  {
    if n == 0 then Some(([], s)) else
      var (x, s1) :- ReadValue(s, et);
      var (xs, rest) :- ReadItems(s1, et, n - 1);
      Some(([x] + xs, rest))
  }

  lemma ReadUintOfPack(n: nat, k: nat, rest: Bytes)
    requires n < Pow256(k)
    ensures ReadUint(Pack(n, k) + rest, k) == Some((n, rest))
  {
    UnpackPack(n, k);
    assert (Pack(n, k) + rest)[..k] == Pack(n, k) && (Pack(n, k) + rest)[k..] == rest;
  }

  lemma Concat3(a: Bytes, b: Bytes, c: Bytes)
    ensures a + b + c == a + (b + c)
  {}

  lemma ReadStrOfWrite(s: Bytes, rest: Bytes)
    requires |s| < Pow256(8)
    ensures ReadStr(WriteStr(s) + rest) == Some((s, rest))
  {
    Concat3(Pack(|s|, 8), s, rest);
    ReadUintOfPack(|s|, 8, s + rest);
    assert (s + rest)[..|s|] == s && (s + rest)[|s|..] == rest;
  }

  /** Every storable value, whatever its nesting, is read back as written, and nothing more is consumed. */
  lemma {:induction false} ReadOfWrite(t: nat, v: Value, rest: Bytes)
    requires Fits(t, v)
    ensures ReadValue(WriteValue(t, v) + rest, t) == Some((v, rest))
    decreases v, 1
  {
    if t == STRING {
      ReadStrOfWrite(v.s, rest);
    } else if t == ARRAY {
      var a, b, c := Pack(v.et, 4), Pack(|v.items|, 8), WriteItems(v.et, v.items);
      Concat3(a, b, c);
      Concat3(a, b + c, rest);
      Concat3(b, c, rest);
      ReadUintOfPack(v.et, 4, b + (c + rest));
      ReadUintOfPack(|v.items|, 8, c + rest);
      ReadItemsOfWrite(v.et, v.items, rest);
    } else {
      ScalarRoundTrip(t, v);
      ReadUintOfPack(ScalarBits(t, v), Width(t), rest);
    }
  }

  lemma {:induction false} ReadItemsOfWrite(et: nat, items: seq<Value>, rest: Bytes)
    requires forall x :: x in items ==> Fits(et, x)
    ensures ReadItems(WriteItems(et, items) + rest, et, |items|) == Some((items, rest))
    decreases items, 0
  {
    if items == [] {
      assert WriteItems(et, items) + rest == rest;
    } else {
      var a, b := WriteValue(et, items[0]), WriteItems(et, items[1..]);
      Concat3(a, b, rest);
      ReadOfWrite(et, items[0], b + rest);
      ReadItemsOfWrite(et, items[1..], rest);
      assert items == [items[0]] + items[1..];
    }
  }

  // ---- metadata list and tensor table

  datatype Entry = Entry(key: Bytes, t: nat, v: Value)

  datatype Tensor = Tensor(name: Bytes, ne: seq<nat>, ty: nat, off: nat)

  datatype Header = Header(version: nat, entries: seq<Entry>, tensors: seq<Tensor>)

  predicate EntryFits(e: Entry) {
    |e.key| < Pow256(8) && e.t < Pow256(4) && Fits(e.t, e.v)
  }

  predicate TensorFits(t: Tensor) {
    && |t.name| < Pow256(8) && |t.ne| < Pow256(4) && t.ty < Pow256(4) && t.off < Pow256(8)
    && forall i :: 0 <= i < |t.ne| ==> t.ne[i] < Pow256(8)
  }

  predicate HeaderFits(h: Header) {
    && h.version < Pow256(4) && |h.entries| < Pow256(8) && |h.tensors| < Pow256(8)
    && EntriesFit(h.entries) && TensorsFit(h.tensors)
  }

  predicate EntriesFit(es: seq<Entry>) { forall i :: 0 <= i < |es| ==> EntryFits(es[i]) }

  predicate TensorsFit(ts: seq<Tensor>) { forall i :: 0 <= i < |ts| ==> TensorFits(ts[i]) }

  function WriteEntry(e: Entry): Bytes
    requires EntryFits(e)
  {
    WriteStr(e.key) + Pack(e.t, 4) + WriteValue(e.t, e.v)
  }

  function WriteEntries(es: seq<Entry>): Bytes
    requires EntriesFit(es)
  {
    if es == [] then [] else WriteEntry(es[0]) + WriteEntries(es[1..])
  }

  function WriteDims(ne: seq<nat>): Bytes {
    if ne == [] then [] else Pack(ne[0], 8) + WriteDims(ne[1..])
  }

  function WriteTensor(t: Tensor): Bytes {
    WriteStr(t.name) + Pack(|t.ne|, 4) + WriteDims(t.ne) + (Pack(t.ty, 4) + Pack(t.off, 8))
  }

  function WriteTensors(ts: seq<Tensor>): Bytes {
    if ts == [] then [] else WriteTensor(ts[0]) + WriteTensors(ts[1..])
  }

  const MAGIC: Bytes := [71, 71, 85, 70]

  function WriteHeader(h: Header): Bytes
    requires HeaderFits(h)
  {
    MAGIC + (Pack(h.version, 4)
        + (Pack(|h.tensors|, 8) + (Pack(|h.entries|, 8) + (WriteEntries(h.entries) + WriteTensors(h.tensors)))))
  }

  function ReadEntry(s: Bytes): (r: Option<(Entry, Bytes)>)
    ensures r.Some? ==> |r.value.1| < |s|
  {
    var (key, s1) :- ReadStr(s);
    var (t, s2) :- ReadUint(s1, 4);
    var (v, rest) :- ReadValue(s2, t);
    Some((Entry(key, t, v), rest))
  }

  /** n things, each read with the same reader. */
  function ReadList<T>(read: Bytes -> Option<(T, Bytes)>, s: Bytes, n: nat): Option<(seq<T>, Bytes)>
    decreases n
  {
    if n == 0 then Some(([], s)) else
      var (x, s1) :- read(s);
      var (xs, rest) :- ReadList(read, s1, n - 1);
      Some(([x] + xs, rest))
  }

  function ReadDim(s: Bytes): Option<(nat, Bytes)> { ReadUint(s, 8) }

  function ReadTensor(s: Bytes): Option<(Tensor, Bytes)> {
    var (name, s1) :- ReadStr(s);
    var (nd, s2) :- ReadUint(s1, 4);
    var (ne, s3) :- ReadList<nat>(ReadDim, s2, nd);
    var (ty, s4) :- ReadUint(s3, 4);
    var (off, rest) :- ReadUint(s4, 8);
    Some((Tensor(name, ne, ty, off), rest))
  }

  function ReadHeader(s: Bytes): Option<(Header, Bytes)> {
    if !(MAGIC <= s) then None else
      var (version, s1) :- ReadUint(s[4..], 4);
      var (nTensors, s2) :- ReadUint(s1, 8);
      var (nEntries, s3) :- ReadUint(s2, 8);
      var (entries, s4) :- ReadList(ReadEntry, s3, nEntries);
      var (tensors, rest) :- ReadList(ReadTensor, s4, nTensors);
      Some((Header(version, entries, tensors), rest))
  }

  /** A reader never gives back more than it was given. */
  ghost predicate Consumes<T>(read: Bytes -> Option<(T, Bytes)>) {
    forall s: Bytes :: read(s).Some? ==> |read(s).value.1| <= |s|
  }

  lemma {:induction false} ReadListConsumes<T>(read: Bytes -> Option<(T, Bytes)>, s: Bytes, n: nat)
    requires Consumes(read)
    ensures ReadList(read, s, n).Some? ==> |ReadList(read, s, n).value.1| <= |s|
    decreases n
  {
    if n > 0 && read(s).Some? {
      ReadListConsumes(read, read(s).value.1, n - 1);
    }
  }

  lemma ReadTensorConsumes(s: Bytes)
    ensures ReadTensor(s).Some? ==> |ReadTensor(s).value.1| <= |s|
  {
    if ReadTensor(s).Some? {
      var (nd, s2) := ReadUint(ReadStr(s).value.1, 4).value;
      ReadListConsumes<nat>(ReadDim, s2, nd);
    }
  }

  lemma ReadHeaderConsumes(s: Bytes)
    ensures ReadHeader(s).Some? ==> |ReadHeader(s).value.1| <= |s|
  {
    if ReadHeader(s).Some? {
      var (nTensors, s2) := ReadUint(ReadUint(s[4..], 4).value.1, 8).value;
      var (nEntries, s3) := ReadUint(s2, 8).value;
      var s4 := ReadList(ReadEntry, s3, nEntries).value.1;
      ReadListConsumes(ReadEntry, s3, nEntries);
      forall b: Bytes ensures ReadTensor(b).Some? ==> |ReadTensor(b).value.1| <= |b| {
        ReadTensorConsumes(b);
      }
      ReadListConsumes(ReadTensor, s4, nTensors);
    }
  }

  /** Reading what was written as one thing w and then more things ws. */
  lemma ReadListCons<T>(read: Bytes -> Option<(T, Bytes)>, w: Bytes, ws: Bytes, rest: Bytes, x: T, xs: seq<T>, n: nat)
    requires read(w + (ws + rest)) == Some((x, ws + rest))
    requires n == |xs| && ReadList(read, ws + rest, n) == Some((xs, rest))
    ensures ReadList(read, w + ws + rest, n + 1) == Some(([x] + xs, rest))
  {
    Concat3(w, ws, rest);
  }

  lemma ReadEntryOfWrite(e: Entry, rest: Bytes)
    requires EntryFits(e)
    ensures ReadEntry(WriteEntry(e) + rest) == Some((e, rest))
  {
    var a, b, c := WriteStr(e.key), Pack(e.t, 4), WriteValue(e.t, e.v);
    Concat3(a, b, c);
    Concat3(a, b + c, rest);
    Concat3(b, c, rest);
    ReadStrOfWrite(e.key, b + (c + rest));
    ReadUintOfPack(e.t, 4, c + rest);
    ReadOfWrite(e.t, e.v, rest);
  }

  lemma {:induction false} ReadEntriesOfWrite(es: seq<Entry>, rest: Bytes)
    requires EntriesFit(es)
    ensures ReadList(ReadEntry, WriteEntries(es) + rest, |es|) == Some((es, rest))
  {
    if es == [] {
      assert WriteEntries(es) + rest == rest;
    } else {
      var w, ws := WriteEntry(es[0]), WriteEntries(es[1..]);
      ReadEntryOfWrite(es[0], ws + rest);
      ReadEntriesOfWrite(es[1..], rest);
      ReadListCons(ReadEntry, w, ws, rest, es[0], es[1..], |es| - 1);
      assert es == [es[0]] + es[1..];
    }
  }

  lemma {:induction false} ReadDimsOfWrite(ne: seq<nat>, rest: Bytes)
    requires forall i :: 0 <= i < |ne| ==> ne[i] < Pow256(8)
    ensures ReadList<nat>(ReadDim, WriteDims(ne) + rest, |ne|) == Some((ne, rest))
  {
    if ne == [] {
      assert WriteDims(ne) + rest == rest;
    } else {
      var w, ws := Pack(ne[0], 8), WriteDims(ne[1..]);
      ReadUintOfPack(ne[0], 8, ws + rest);
      ReadDimsOfWrite(ne[1..], rest);
      ReadListCons<nat>(ReadDim, w, ws, rest, ne[0], ne[1..], |ne| - 1);
      assert ne == [ne[0]] + ne[1..];
    }
  }

  lemma ReadTensorOfWrite(t: Tensor, rest: Bytes)
    requires TensorFits(t)
    ensures ReadTensor(WriteTensor(t) + rest) == Some((t, rest))
  {
    var a, b, c, d, e := WriteStr(t.name), Pack(|t.ne|, 4), WriteDims(t.ne), Pack(t.ty, 4), Pack(t.off, 8);
    var tail := d + (e + rest);
    Concat3(d, e, rest);
    Concat3(a + b + c, d + e, rest);
    Concat3(a + b, c, tail);
    Concat3(a, b, c + tail);
    ReadStrOfWrite(t.name, b + (c + tail));
    ReadUintOfPack(|t.ne|, 4, c + tail);
    ReadDimsOfWrite(t.ne, tail);
    ReadUintOfPack(t.ty, 4, e + rest);
    ReadUintOfPack(t.off, 8, rest);
  }

  function Joined(ws: seq<Bytes>): Bytes {
    if ws == [] then [] else ws[0] + Joined(ws[1..])
  }

  /** A reader that undoes each of ws, whatever follows, undoes all of them. */
  lemma {:induction false} ReadListOfJoined<T>(read: Bytes -> Option<(T, Bytes)>, ws: seq<Bytes>, xs: seq<T>,
                                               rest: Bytes)
    requires |ws| == |xs| && forall i, b: Bytes :: 0 <= i < |xs| ==> read(ws[i] + b) == Some((xs[i], b))
    ensures ReadList(read, Joined(ws) + rest, |xs|) == Some((xs, rest))
  {
    if xs == [] {
      assert Joined(ws) + rest == rest;
    } else {
      forall i, b: Bytes | 0 <= i < |xs| - 1 ensures read(ws[1..][i] + b) == Some((xs[1..][i], b)) {
        assert read(ws[i + 1] + b) == Some((xs[i + 1], b));
      }
      ReadListOfJoined(read, ws[1..], xs[1..], rest);
      ReadListCons(read, ws[0], Joined(ws[1..]), rest, xs[0], xs[1..], |xs| - 1);
      assert xs == [xs[0]] + xs[1..];
    }
  }

  function EachWritten(ts: seq<Tensor>): seq<Bytes> {
    seq(|ts|, i requires 0 <= i < |ts| => WriteTensor(ts[i]))
  }

  lemma {:induction false} TensorsJoined(ts: seq<Tensor>)
    ensures WriteTensors(ts) == Joined(EachWritten(ts))
  {
    if ts != [] {
      TensorsJoined(ts[1..]);
      assert EachWritten(ts)[1..] == EachWritten(ts[1..]);
    }
  }

  lemma ReadTensorsOfWrite(ts: seq<Tensor>, rest: Bytes)
    requires TensorsFit(ts)
    ensures ReadList(ReadTensor, WriteTensors(ts) + rest, |ts|) == Some((ts, rest))
  {
    var ws := EachWritten(ts);
    TensorsJoined(ts);
    forall i, b: Bytes | 0 <= i < |ts| ensures ReadTensor(ws[i] + b) == Some((ts[i], b)) {
      ReadTensorOfWrite(ts[i], b);
    }
    ReadListOfJoined(ReadTensor, ws, ts, rest);
  }

  lemma ReadTablesOfWrite(h: Header, rest: Bytes)
    requires HeaderFits(h)
    ensures ReadList(ReadEntry, WriteEntries(h.entries) + WriteTensors(h.tensors) + rest, |h.entries|)
            == Some((h.entries, WriteTensors(h.tensors) + rest))
    ensures ReadList(ReadTensor, WriteTensors(h.tensors) + rest, |h.tensors|) == Some((h.tensors, rest))
  {
    Concat3(WriteEntries(h.entries), WriteTensors(h.tensors), rest);
    ReadEntriesOfWrite(h.entries, WriteTensors(h.tensors) + rest);
    ReadTensorsOfWrite(h.tensors, rest);
  }

  lemma ReadFixedOfWrite(version: nat, nTensors: nat, nEntries: nat, body: Bytes)
    requires version < Pow256(4) && nTensors < Pow256(8) && nEntries < Pow256(8)
    ensures var s := MAGIC + (Pack(version, 4) + (Pack(nTensors, 8) + (Pack(nEntries, 8) + body)));
            && MAGIC <= s
            && ReadUint(s[4..], 4) == Some((version, Pack(nTensors, 8) + (Pack(nEntries, 8) + body)))
            && ReadUint(Pack(nTensors, 8) + (Pack(nEntries, 8) + body), 8) == Some((nTensors, Pack(nEntries, 8) + body))
            && ReadUint(Pack(nEntries, 8) + body, 8) == Some((nEntries, body))
  {
    ReadUintOfPack(nEntries, 8, body);
    ReadUintOfPack(nTensors, 8, Pack(nEntries, 8) + body);
    ReadUintOfPack(version, 4, Pack(nTensors, 8) + (Pack(nEntries, 8) + body));
    assert (MAGIC + (Pack(version, 4) + (Pack(nTensors, 8) + (Pack(nEntries, 8) + body))))[4..]
        == Pack(version, 4) + (Pack(nTensors, 8) + (Pack(nEntries, 8) + body));
  }

  /** The whole header is read back as written, and exactly the header is consumed. */
  lemma ReadHeaderOfWrite(h: Header, rest: Bytes)
    requires HeaderFits(h)
    ensures ReadHeader(WriteHeader(h) + rest) == Some((h, rest))
  {
    var a, b, c, d := Pack(h.version, 4), Pack(|h.tensors|, 8), Pack(|h.entries|, 8),
        WriteEntries(h.entries) + WriteTensors(h.tensors);
    Concat3(c, d, rest);
    Concat3(b, c + d, rest);
    Concat3(a, b + (c + d), rest);
    Concat3(MAGIC, a + (b + (c + d)), rest);
    ReadFixedOfWrite(h.version, |h.tensors|, |h.entries|, d + rest);
    ReadTablesOfWrite(h, rest);
  }

  // ---- where everything lies in a file

  /** A string: eight bytes of length, then its bytes; as many as there are if the file ends before. */
  lemma StringLayout(s: Bytes)
    ensures ReadStr(s).Some? <==> |s| >= 8
    ensures |s| >= 8 ==>
              var n := Unpack(s[..8]);
              ReadStr(s).value == if 8 + n <= |s| then (s[8..8 + n], s[8 + n..]) else (s[8..], [])
  {
    if |s| >= 8 && 8 + Unpack(s[..8]) <= |s| {
      DropDrop(s, 8, Unpack(s[..8]));
    }
  }

  lemma DropDrop(s: Bytes, a: nat, b: nat)
    requires a + b <= |s|
    ensures s[a..][b..] == s[a + b..] && s[a..][..b] == s[a..a + b]
  {}

  lemma Window(s: Bytes, a: nat, b: nat, n: nat)
    requires a + b + n <= |s|
    ensures s[a..][b..b + n] == s[a + b..a + b + n]
  {}

  /** An array: four bytes of element type, eight of length, then its items. */
  lemma ArrayLayout(s: Bytes)
    requires ReadValue(s, 9).Some?
    ensures |s| >= 12
    ensures var (v, rest) := ReadValue(s, 9).value;
            && v.Arr? && v.et == Unpack(s[..4]) && |v.items| == Unpack(s[4..12])
            && ReadItems(s[12..], v.et, |v.items|) == Some((v.items, rest))
  {
    var (et, s1) := ReadUint(s, 4).value;
    var (n, s2) := ReadUint(s1, 8).value;
    DropDrop(s, 4, 8);
    ReadItemsFits(s2, et, n);
  }

  /** A metadata entry: its key, four bytes of type, its value. */
  lemma EntryLayout(s: Bytes)
    requires ReadEntry(s).Some?
    ensures |s| >= 8 && 12 + Unpack(s[..8]) <= |s|
    ensures var (e, rest) := ReadEntry(s).value;
            var n := Unpack(s[..8]);
            && e.key == s[8..8 + n] && e.t == Unpack(s[8 + n..12 + n])
            && ReadValue(s[12 + n..], e.t) == Some((e.v, rest))
  {
    StringLayout(s);
    if 8 + Unpack(s[..8]) <= |s| {
      UintAt(s, 8 + Unpack(s[..8]), 4);
    }
  }

  lemma {:induction false} DimsLayout(s: Bytes, n: nat)
    requires ReadList<nat>(ReadDim, s, n).Some?
    ensures 8 * n <= |s|
    ensures var (ne, rest) := ReadList<nat>(ReadDim, s, n).value;
            && |ne| == n && rest == s[8 * n..]
            && forall j :: 0 <= j < n ==> ne[j] == Unpack(s[8 * j..8 * j + 8])
    decreases n
  {
    if n > 0 {
      DimsLayout(s[8..], n - 1);
      var (ne, rest) := ReadList<nat>(ReadDim, s, n).value;
      DropDrop(s, 8, 8 * (n - 1));
      forall j | 0 <= j < n ensures ne[j] == Unpack(s[8 * j..8 * j + 8]) {
        if j > 0 {
          Window(s, 8, 8 * (j - 1), 8);
        }
      }
    }
  }

  lemma DimsAt(s: Bytes, at: nat, n: nat)
    requires at <= |s| && ReadList<nat>(ReadDim, s[at..], n).Some?
    ensures at + 8 * n <= |s|
    ensures var (ne, rest) := ReadList<nat>(ReadDim, s[at..], n).value;
            && |ne| == n && rest == s[at + 8 * n..]
            && forall j :: 0 <= j < n ==> ne[j] == Unpack(s[at + 8 * j..at + 8 * j + 8])
  {
    DimsLayout(s[at..], n);
    DropDrop(s, at, 8 * n);
    var (ne, rest) := ReadList<nat>(ReadDim, s[at..], n).value;
    forall j | 0 <= j < n ensures ne[j] == Unpack(s[at + 8 * j..at + 8 * j + 8]) {
      Window(s, at, 8 * j, 8);
    }
  }

  lemma UintAt(s: Bytes, at: nat, k: nat)
    requires at <= |s|
    ensures ReadUint(s[at..], k) == if at + k <= |s| then Some((Unpack(s[at..at + k]), s[at + k..])) else None
  {
    if at + k <= |s| {
      DropDrop(s, at, k);
    }
  }

  /** A tensor behind its name: four bytes of rank, eight for each dimension, four of type, eight of offset. */
  lemma TensorLayoutFrom(s: Bytes, n: nat)
    requires ReadTensor(s).Some? && 4 <= n <= |s| + 4 && ReadStr(s).value.1 == s[n - 4..]
    ensures n <= |s|
    ensures var (t, rest) := ReadTensor(s).value;
            var end := n + 8 * |t.ne|;
            && end + 12 <= |s| && |t.ne| == Unpack(s[n - 4..n])
            && (forall j :: 0 <= j < |t.ne| ==> t.ne[j] == Unpack(s[n + 8 * j..n + 8 * j + 8]))
            && t.ty == Unpack(s[end..end + 4]) && t.off == Unpack(s[end + 4..end + 12]) && rest == s[end + 12..]
  {
    UintAt(s, n - 4, 4);
    var nd := Unpack(s[n - 4..n]);
    DimsAt(s, n, nd);
    UintAt(s, n + 8 * nd, 4);
    UintAt(s, n + 8 * nd + 4, 8);
  }

  /** A tensor: its name and what is behind it. */
  lemma TensorLayout(s: Bytes)
    requires ReadTensor(s).Some?
    ensures |s| >= 8 && 12 + Unpack(s[..8]) <= |s|
    ensures var (t, rest) := ReadTensor(s).value;
            var n := 12 + Unpack(s[..8]);
            var end := n + 8 * |t.ne|;
            && end + 12 <= |s| && t.name == s[8..n - 4] && |t.ne| == Unpack(s[n - 4..n])
            && (forall j :: 0 <= j < |t.ne| ==> t.ne[j] == Unpack(s[n + 8 * j..n + 8 * j + 8]))
            && t.ty == Unpack(s[end..end + 4]) && t.off == Unpack(s[end + 4..end + 12]) && rest == s[end + 12..]
  {
    StringLayout(s);
    if 8 + Unpack(s[..8]) <= |s| {
      TensorLayoutFrom(s, 12 + Unpack(s[..8]));
    }
  }

  /** A file: GGUF, the version at 4, the number of tensors at 8 and of metadata entries at 16, then the
      entries from 24 on, then the tensors. */
  lemma HeaderLayout(s: Bytes)
    requires ReadHeader(s).Some?
    ensures |s| >= 24 && s[..4] == [71, 71, 85, 70]
    ensures var (h, rest) := ReadHeader(s).value;
            && h.version == Unpack(s[4..8]) && |h.tensors| == Unpack(s[8..16]) && |h.entries| == Unpack(s[16..24])
            && var entries := ReadList(ReadEntry, s[24..], |h.entries|);
               && entries.Some? && entries.value.0 == h.entries
               && ReadList(ReadTensor, entries.value.1, |h.tensors|) == Some((h.tensors, rest))
  {
    DropDrop(s, 4, 4);
    DropDrop(s, 8, 8);
    DropDrop(s, 16, 8);
    var s4 := ReadList(ReadEntry, s[24..], Unpack(s[16..24])).value.1;
    ReadEntriesFit(s[24..], Unpack(s[16..24]));
    ReadTensorsFit(s4, Unpack(s[8..16]));
  }

  // ---- alignment and the data section

  const ALIGNMENT_KEY := Ascii("general.alignment")

  function Pow2(k: nat): (r: nat)
    ensures r > 0
  {
    if k == 0 then 1 else 2 * Pow2(k - 1)
  }

  /** int() of an IEEE number with e exponent and m fraction bits: cut off towards zero, no infinity, no NaN. */
  function IntOfFloat(bits: nat, e: nat, m: nat): Option<int>
    requires e > 0
  {
    var exponent, fraction := bits / Pow2(m) % Pow2(e), bits % Pow2(m);
    if exponent == Pow2(e) - 1 then None else
      var mantissa := if exponent == 0 then fraction else fraction + Pow2(m);
      var shift := Max(exponent, 1) - (Pow2(e - 1) - 1) - m;
      var size := if shift >= 0 then mantissa * Pow2(shift) else mantissa / Pow2(-shift);
      Some(if bits / Pow2(e + m) % 2 == 1 then -size else size)
  }

  predicate IsDigit(b: byte) { 48 <= b <= 57 }
  predicate IsBlank(b: byte) { 9 <= b <= 13 || 28 <= b <= 32 }

  function StripBlanks(s: Bytes): Bytes {
    if s == [] then []
    else if IsBlank(s[0]) then StripBlanks(s[1..])
    else if IsBlank(s[|s| - 1]) then StripBlanks(s[..|s| - 1])
    else s
  }

  /** Digits, with single underscores between them. */
  function IntOfDigits(s: Bytes): Option<nat> {
    if s == [] || !IsDigit(s[|s| - 1]) then None
    else
      var before, d := s[..|s| - 1], s[|s| - 1] - 48;
      if before == [] then Some(d)
      else
        var n :- IntOfDigits(if before[|before| - 1] == 95 then before[..|before| - 1] else before);
        Some(10 * n + d)
  }

  /** int() of a string in ASCII. */
  function IntOfString(s: Bytes): Option<int> {
    var t := StripBlanks(s);
    if t != [] && (t[0] == 43 || t[0] == 45) then
      var n :- IntOfDigits(t[1..]);
      Some(if t[0] == 45 then 0 - n else n)
    else
      var n :- IntOfDigits(t);
      Some(n)
  }

  /** int() of a metadata value; an array is an error. */
  function IntOf(t: nat, v: Value): Option<int> {
    match v
    case Int(i) => Some(i)
    case Bool(b) => Some(if b then 1 else 0)
    case Bits(bits) => if t == 6 then IntOfFloat(bits, 8, 23) else IntOfFloat(bits, 11, 52)
    case Str(s) => IntOfString(s)
    case Arr(_, _) => None
  }

  /** The digits of a number. */
  function Decimal(n: nat): (r: Bytes)
    ensures r != [] && forall i :: 0 <= i < |r| ==> IsDigit(r[i])
  {
    if n < 10 then [48 + n] else Decimal(n / 10) + [48 + n % 10]
  }

  lemma {:induction false} IntOfDecimal(n: nat)
    ensures IntOfDigits(Decimal(n)) == Some(n)
  {
    if n >= 10 {
      IntOfDecimal(n / 10);
      var before := Decimal(n / 10);
      assert Decimal(n)[..|Decimal(n)| - 1] == before && Decimal(n)[|Decimal(n)| - 1] == 48 + n % 10;
    }
  }

  lemma MulBelow(a: nat, b: nat, c: nat)
    requires a < b && c > 0
    ensures a * c + c <= b * c
  {
    MulAtLeast(b - a, c);
    MulDiff(b, a, c);
  }

  lemma {:induction false} Pow2Sum(a: nat, b: nat)
    ensures Pow2(a + b) == Pow2(a) * Pow2(b)
  {
    if a > 0 {
      Pow2Sum(a - 1, b);
    }
  }

  /** The two fields of a positive number: exponent x and fraction f. */
  lemma FloatFields(x: nat, f: nat, e: nat, m: nat)
    requires x < Pow2(e) && f < Pow2(m)
    ensures var bits := x * Pow2(m) + f;
            bits / Pow2(m) % Pow2(e) == x && bits % Pow2(m) == f && bits / Pow2(e + m) == 0
  {
    var bits := x * Pow2(m) + f;
    QuotientUnique(bits, Pow2(m), x, f);
    QuotientUnique(x, Pow2(e), 0, x);
    Pow2Sum(e, m);
    MulBelow(x, Pow2(e), Pow2(m));
    QuotientUnique(bits, Pow2(e + m), 0, bits);
  }

  /** A positive normal number with its point inside the fraction. */
  lemma IntOfFields(x: nat, f: nat, e: nat, m: nat, right: nat, n: nat)
    requires e >= 2 && 1 <= x < Pow2(e) - 1 && f < Pow2(m) && x + right == Pow2(e - 1) - 1 + m
    requires f + Pow2(m) == n * Pow2(right)
    ensures IntOfFloat(x * Pow2(m) + f, e, m) == Some(n)
  {
    FloatFields(x, f, e, m);
    QuotientUnique(f + Pow2(m), Pow2(right), n, 0);
    assert Pow2(0) == 1;
  }

  lemma FractionOf(q: nat, r: nat, m: nat)
    requires r < Pow2(q) && q <= m
    ensures r * Pow2(m - q) < Pow2(m)
    ensures r * Pow2(m - q) + Pow2(m) == (Pow2(q) + r) * Pow2(m - q)
  {
    Pow2Sum(q, m - q);
    MulBelow(r, Pow2(q), Pow2(m - q));
    MulDiff(Pow2(q) + r, r, Pow2(m - q));
  }

  lemma BiasedInRange(q: nat, e: nat)
    requires e >= 2 && q < Pow2(e - 1)
    ensures 1 <= q + Pow2(e - 1) - 1 < Pow2(e) - 1
  {
    assert Pow2(e) == 2 * Pow2(e - 1) && Pow2(e - 1) == 2 * Pow2(e - 2);
  }

  /** The whole number 2 to the q + r, of q + 1 binary digits, is read back from its floating-point form, with the
      biased exponent x and the fraction f. */
  lemma IntOfWholeFloat(q: nat, r: nat, e: nat, m: nat, x: nat, f: nat)
    requires r < Pow2(q) && q <= m && e >= 2 && q < Pow2(e - 1)
    requires x == q + Pow2(e - 1) - 1 && f == r * Pow2(m - q)
    ensures IntOfFloat(x * Pow2(m) + f, e, m) == Some(Pow2(q) + r)
  {
    FractionOf(q, r, m);
    BiasedInRange(q, e);
    IntOfFields(x, f, e, m, m - q, Pow2(q) + r);
  }

  /** What int() makes of a metadata value: numbers are taken as they are, decimal strings with or without a sign
      are read, an array is refused. */
  lemma IntOfIs(t: nat, i: int, n: nat, items: seq<Value>)
    ensures IntOf(t, Int(i)) == Some(i) && IntOf(t, Bool(true)) == Some(1) && IntOf(t, Bool(false)) == Some(0)
    ensures IntOf(t, Str(Decimal(n))) == Some(n) && IntOf(t, Str([45] + Decimal(n))) == Some(0 - n)
    ensures IntOf(t, Arr(n, items)) == None
  {
    IntOfDecimal(n);
    assert ([45] + Decimal(n))[1..] == Decimal(n);
    assert Decimal(n)[0] != 45;
  }

  /** The last general.alignment entry, 32 if there is none; every such entry is converted, and may fail. */
  function FoundAlignment(es: seq<Entry>): Option<int> {
    if es == [] then Some(32)
    else
      var e := es[|es| - 1];
      var before :- FoundAlignment(es[..|es| - 1]);
      if e.key == ALIGNMENT_KEY then IntOf(e.t, e.v) else Some(before)
  }

  /** The alignment, 0 if it cannot be found. */
  function Alignment(es: seq<Entry>): int {
    var found := FoundAlignment(es);
    if found.Some? then found.value else 0
  }

  /** Without such an entry the alignment is 32; otherwise the last one says what it is. */
  lemma {:induction false} LastAlignment(es: seq<Entry>, k: nat)
    requires k <= |es| && forall j :: k <= j < |es| ==> es[j].key != Ascii("general.alignment")
    ensures k == 0 ==> FoundAlignment(es) == Some(32)
    ensures k > 0 && es[k - 1].key == Ascii("general.alignment") && FoundAlignment(es[..k - 1]).Some? ==>
              FoundAlignment(es) == IntOf(es[k - 1].t, es[k - 1].v)
  {
    if k < |es| {
      LastAlignment(es[..|es| - 1], k);
      assert k > 0 ==> es[..|es| - 1][..k - 1] == es[..k - 1];
    } else if k > 0 {
      assert es[..|es| - 1] == es[..k - 1];
    }
  }

  lemma {:induction false} AlignmentStaysLost(es: seq<Entry>, i: nat)
    requires i <= |es| && FoundAlignment(es[..i]) == None
    ensures FoundAlignment(es) == None
  {
    if i < |es| {
      assert es[..|es| - 1][..i] == es[..i];
      AlignmentStaysLost(es[..|es| - 1], i);
    } else {
      assert es[..i] == es;
    }
  }

  /** The writer's padding of n bytes. */
  function Padding(n: nat, align: int): nat
    requires align > 0
  {
    (-(n as int)) % align
  }

  /** The reader's start of the data section. */
  function RoundUp(n: nat, align: int): int
    requires align > 0
  {
    (n + align - 1) / align * align
  }

  /** The reader's rounded offset is the writer's padded length, for every alignment. */
  lemma RoundUpIsPadded(n: nat, align: int)
    requires align > 0
    ensures RoundUp(n, align) == n + Padding(n, align)
    ensures (n + Padding(n, align)) % align == 0 && Padding(n, align) < align
  {
    var q, p := (n + align - 1) / align, Padding(n, align);
    var m := -((-(n as int)) / align);
    assert -(n as int) == (-(n as int)) / align * align + p;
    assert (-(n as int)) / align * align == -(m * align);
    assert n + p == m * align;
    assert n + align - 1 == m * align + (align - 1 - p);
    QuotientUnique(n + align - 1, align, m, align - 1 - p);
    MultipleMod(m, align);
  }

  lemma MulAtLeast(k: int, d: int)
    requires k >= 1 && d > 0
    ensures k * d >= d
  {}

  lemma MulDiff(a: int, b: int, d: int)
    ensures (a - b) * d == a * d - b * d
  {}

  lemma QuotientUnique(x: int, d: int, q: int, r: int)
    requires d > 0 && x == q * d + r && 0 <= r < d
    ensures x / d == q
  {
    var q', r' := x / d, x % d;
    assert x == q' * d + r' && 0 <= r' < d;
    MulDiff(q, q', d);
    MulDiff(q', q, d);
    if q > q' {
      MulAtLeast(q - q', d);
    } else if q < q' {
      MulAtLeast(q' - q, d);
    }
  }

  lemma MultipleMod(m: int, d: int)
    requires d > 0
    ensures (m * d) % d == 0
  {
    QuotientUnique(m * d, d, m, 0);
  }

  function Zeros(n: nat): (r: Bytes)
    ensures |r| == n
  {
    seq(n, i => 0)
  }

  function WriteFile(h: Header, data: Bytes): Bytes
    requires HeaderFits(h) && Alignment(h.entries) > 0
  {
    var head := WriteHeader(h);
    head + (Zeros(Padding(|head|, Alignment(h.entries))) + data)
  }

  /** read_gguf: the header, and everything from the rounded end of the header on. */
  function ReadFile(file: Bytes): Option<(Header, Bytes)> {
    ReadHeaderConsumes(file);
    var (h, rest) :- ReadHeader(file);
    var align := Alignment(h.entries);
    if align <= 0 then None else Some((h, DataSection(file, |file| - |rest|, align)))
  }

  /** Everything from the rounded end of the header on; seeking past the end reads nothing. */
  function DataSection(file: Bytes, headerEnd: nat, align: int): Bytes
    requires align > 0
  {
    var start := RoundUp(headerEnd, align);
    if 0 <= start <= |file| then file[start..] else []
  }

  lemma DataSectionOfWrite(head: Bytes, data: Bytes, align: int)
    requires align > 0
    ensures DataSection(head + (Zeros(Padding(|head|, align)) + data), |head|, align) == data
  {
    RoundUpIsPadded(|head|, align);
    DropTwo(head, Zeros(Padding(|head|, align)), data);
  }

  lemma DropTwo(a: Bytes, b: Bytes, c: Bytes)
    ensures (a + (b + c))[|a| + |b|..] == c
  {}

  lemma ReadFileOf(file: Bytes, h: Header, headerEnd: nat, rest: Bytes, data: Bytes)
    requires ReadHeader(file) == Some((h, rest)) && |file| == headerEnd + |rest|
    requires Alignment(h.entries) > 0 && DataSection(file, headerEnd, Alignment(h.entries)) == data
    ensures ReadFile(file) == Some((h, data))
  {}

  lemma FileOfHeader(head: Bytes, h: Header, data: Bytes)
    requires Alignment(h.entries) > 0
    requires var tail := Zeros(Padding(|head|, Alignment(h.entries))) + data;
             ReadHeader(head + tail) == Some((h, tail))
    ensures ReadFile(head + (Zeros(Padding(|head|, Alignment(h.entries))) + data)) == Some((h, data))
  {
    var align := Alignment(h.entries);
    var tail := Zeros(Padding(|head|, align)) + data;
    DataSectionOfWrite(head, data, align);
    ReadFileOf(head + tail, h, |head|, tail, data);
  }

  /** Metadata, tensor table and data survive a round trip through the file. */
  lemma FileRoundTrip(h: Header, data: Bytes)
    requires HeaderFits(h) && Alignment(h.entries) > 0
    ensures ReadFile(WriteFile(h, data)) == Some((h, data))
  {
    var head := WriteHeader(h);
    ReadHeaderOfWrite(h, Zeros(Padding(|head|, Alignment(h.entries))) + data);
    FileOfHeader(head, h, data);
  }

  // ---- whatever is read can be written back

  lemma {:induction false} UnpackBound(b: Bytes)
    ensures Unpack(b) < Pow256(|b|)
  {
    if b != [] {
      UnpackBound(b[1..]);
    }
  }

  lemma ReadUintFits(s: Bytes, k: nat)
    ensures ReadUint(s, k).Some? ==> ReadUint(s, k).value.0 < Pow256(k)
  {
    if |s| >= k {
      UnpackBound(s[..k]);
    }
  }

  lemma ReadStrFits(s: Bytes)
    ensures ReadStr(s).Some? ==> |ReadStr(s).value.0| < Pow256(8)
  {
    ReadUintFits(s, 8);
  }

  lemma ScalarOfFits(t: nat, n: nat)
    requires IsScalar(t) && n < Pow256(Width(t))
    ensures ScalarFits(t, ScalarOf(t, n))
  {}

  lemma {:induction false} ReadValueFits(s: Bytes, t: nat)
    ensures ReadValue(s, t).Some? ==> Fits(t, ReadValue(s, t).value.0)
    decreases |s|, 0
  {
    if ReadValue(s, t).Some? {
      if t == STRING {
        ReadStrFits(s);
      } else if t == ARRAY {
        var (et, s1) := ReadUint(s, 4).value;
        var (n, s2) := ReadUint(s1, 8).value;
        ReadUintFits(s, 4);
        ReadUintFits(s1, 8);
        ReadItemsFits(s2, et, n);
      } else {
        ReadUintFits(s, Width(t));
        ScalarOfFits(t, ReadUint(s, Width(t)).value.0);
      }
    }
  }

  lemma {:induction false} ReadItemsFits(s: Bytes, et: nat, n: nat)
    ensures ReadItems(s, et, n).Some? ==>
              |ReadItems(s, et, n).value.0| == n && forall x :: x in ReadItems(s, et, n).value.0 ==> Fits(et, x)
    decreases |s|, 1
  {
    if n > 0 && ReadItems(s, et, n).Some? {
      ReadValueFits(s, et);
      ReadItemsFits(ReadValue(s, et).value.1, et, n - 1);
    }
  }

  lemma ReadEntryFits(s: Bytes)
    ensures ReadEntry(s).Some? ==> EntryFits(ReadEntry(s).value.0)
  {
    if ReadEntry(s).Some? {
      var s1 := ReadStr(s).value.1;
      var (t, s2) := ReadUint(s1, 4).value;
      ReadStrFits(s);
      ReadUintFits(s1, 4);
      ReadValueFits(s2, t);
    }
  }

  lemma {:induction false} ReadListFits<T>(read: Bytes -> Option<(T, Bytes)>, fits: T -> bool, s: Bytes, n: nat)
    requires forall b: Bytes :: read(b).Some? ==> fits(read(b).value.0)
    ensures ReadList(read, s, n).Some? ==>
              |ReadList(read, s, n).value.0| == n && forall i :: 0 <= i < n ==> fits(ReadList(read, s, n).value.0[i])
    decreases n
  {
    if n > 0 && read(s).Some? {
      ReadListFits(read, fits, read(s).value.1, n - 1);
    }
  }

  lemma ReadDimsFit(s: Bytes, n: nat)
    ensures ReadList<nat>(ReadDim, s, n).Some? ==>
              var ne := ReadList<nat>(ReadDim, s, n).value.0; |ne| == n && forall i :: 0 <= i < n ==> ne[i] < Pow256(8)
  {
    forall b: Bytes ensures ReadDim(b).Some? ==> ReadDim(b).value.0 < Pow256(8) {
      ReadUintFits(b, 8);
    }
    ReadListFits<nat>(ReadDim, (d: nat) => d < Pow256(8), s, n);
  }

  lemma ReadTensorFits(s: Bytes)
    ensures ReadTensor(s).Some? ==> TensorFits(ReadTensor(s).value.0)
  {
    if ReadTensor(s).Some? {
      var s1 := ReadStr(s).value.1;
      var (nd, s2) := ReadUint(s1, 4).value;
      var s3 := ReadList<nat>(ReadDim, s2, nd).value.1;
      var s4 := ReadUint(s3, 4).value.1;
      ReadStrFits(s);
      ReadUintFits(s1, 4);
      ReadDimsFit(s2, nd);
      ReadUintFits(s3, 4);
      ReadUintFits(s4, 8);
    }
  }

  lemma ReadEntriesFit(s: Bytes, n: nat)
    ensures ReadList(ReadEntry, s, n).Some? ==>
              |ReadList(ReadEntry, s, n).value.0| == n && EntriesFit(ReadList(ReadEntry, s, n).value.0)
  {
    forall b: Bytes ensures ReadEntry(b).Some? ==> EntryFits(ReadEntry(b).value.0) {
      ReadEntryFits(b);
    }
    ReadListFits(ReadEntry, EntryFits, s, n);
  }

  lemma ReadTensorsFit(s: Bytes, n: nat)
    ensures ReadList(ReadTensor, s, n).Some? ==>
              |ReadList(ReadTensor, s, n).value.0| == n && TensorsFit(ReadList(ReadTensor, s, n).value.0)
  {
    forall b: Bytes ensures ReadTensor(b).Some? ==> TensorFits(ReadTensor(b).value.0) {
      ReadTensorFits(b);
    }
    ReadListFits(ReadTensor, TensorFits, s, n);
  }

  /** Every header that can be read, from any bytes, can be written. */
  lemma ReadHeaderFits(s: Bytes)
    ensures ReadHeader(s).Some? ==> HeaderFits(ReadHeader(s).value.0)
  {
    if ReadHeader(s).Some? {
      var s1 := ReadUint(s[4..], 4).value.1;
      var (nTensors, s2) := ReadUint(s1, 8).value;
      var (nEntries, s3) := ReadUint(s2, 8).value;
      var s4 := ReadList(ReadEntry, s3, nEntries).value.1;
      ReadUintFits(s[4..], 4);
      ReadUintFits(s1, 8);
      ReadUintFits(s2, 8);
      ReadEntriesFit(s3, nEntries);
      ReadTensorsFit(s4, nTensors);
    }
  }

  // ---- the tools' own loops

  method AppendTensor(before: Bytes, t: Tensor) returns (out: Bytes)
    ensures out == before + WriteTensor(t)
  {
    out := before + WriteStr(t.name) + Pack(|t.ne|, 4);
    ghost var fixed := out;
    for j := 0 to |t.ne|
      invariant out + WriteDims(t.ne[j..]) == fixed + WriteDims(t.ne)
    {
      assert t.ne[j..][1..] == t.ne[j + 1..];
      Concat3(out, Pack(t.ne[j], 8), WriteDims(t.ne[j + 1..]));
      out := out + Pack(t.ne[j], 8);
    }
    assert out == fixed + WriteDims(t.ne);
    out := out + (Pack(t.ty, 4) + Pack(t.off, 8));
    TensorAppended(before, t, out);
  }

  lemma TensorAppended(before: Bytes, t: Tensor, out: Bytes)
    requires out == before + WriteStr(t.name) + Pack(|t.ne|, 4) + WriteDims(t.ne) + (Pack(t.ty, 4) + Pack(t.off, 8))
    ensures out == before + WriteTensor(t)
  {
    var a, b, c, d := WriteStr(t.name), Pack(|t.ne|, 4), WriteDims(t.ne), Pack(t.ty, 4) + Pack(t.off, 8);
    Concat3(before, a, b);
    Concat3(before, a + b, c);
    Concat3(before, a + b + c, d);
  }

  method AppendEntry(before: Bytes, x: Entry) returns (out: Bytes)
    requires EntryFits(x)
    ensures out == before + WriteEntry(x)
  {
    out := before + WriteStr(x.key) + Pack(x.t, 4);
    out := out + WriteValue(x.t, x.v);
    EntryAppended(before, WriteStr(x.key), Pack(x.t, 4), WriteValue(x.t, x.v));
  }

  lemma EntryAppended(before: Bytes, a: Bytes, b: Bytes, c: Bytes)
    ensures before + a + b + c == before + (a + b + c)
  {
    Concat3(before, a, b);
    Concat3(before, a + b, c);
  }

  /** The header as the converters rebuild it, padded to the alignment. */
  method BuildHeader(h: Header) returns (out: Bytes)
    requires HeaderFits(h) && Alignment(h.entries) > 0
    ensures out == WriteHeader(h) + Zeros(Padding(|WriteHeader(h)|, Alignment(h.entries)))
  {
    ghost var target := WriteHeader(h);
    out := BuildEntries(h);
    for i := 0 to |h.tensors|
      invariant out + WriteTensors(h.tensors[i..]) == target
    {
      assert h.tensors[i..][0] == h.tensors[i] && h.tensors[i..][1..] == h.tensors[i + 1..];
      Concat3(out, WriteTensor(h.tensors[i]), WriteTensors(h.tensors[i + 1..]));
      out := AppendTensor(out, h.tensors[i]);
    }
    assert out == target;
    out := out + Zeros(Padding(|out|, Alignment(h.entries)));
  }

  method AppendEntries(before: Bytes, es: seq<Entry>) returns (out: Bytes)
    requires EntriesFit(es)
    ensures out == before + WriteEntries(es)
  {
    out := before;
    for i := 0 to |es|
      invariant out + WriteEntries(es[i..]) == before + WriteEntries(es)
    {
      assert es[i..][0] == es[i] && es[i..][1..] == es[i + 1..];
      Concat3(out, WriteEntry(es[i]), WriteEntries(es[i + 1..]));
      out := AppendEntry(out, es[i]);
    }
    assert out + [] == out;
  }

  /** The fixed part and the metadata. */
  method BuildEntries(h: Header) returns (out: Bytes)
    requires HeaderFits(h)
    ensures out + WriteTensors(h.tensors) == WriteHeader(h)
  {
    out := MAGIC + Pack(h.version, 4) + Pack(|h.tensors|, 8) + Pack(|h.entries|, 8);
    out := AppendEntries(out, h.entries);
    HeaderParts(h);
  }

  lemma HeaderParts(h: Header)
    requires HeaderFits(h)
    ensures MAGIC + Pack(h.version, 4) + Pack(|h.tensors|, 8) + Pack(|h.entries|, 8)
              + WriteEntries(h.entries) + WriteTensors(h.tensors) == WriteHeader(h)
  {
    var a, b, c := Pack(h.version, 4), Pack(|h.tensors|, 8), Pack(|h.entries|, 8);
    var d, e := WriteEntries(h.entries), WriteTensors(h.tensors);
    Concat3(MAGIC + a + b + c, d, e);
    Concat3(MAGIC + a + b, c, d + e);
    Concat3(MAGIC + a, b, c + (d + e));
    Concat3(MAGIC, a, b + (c + (d + e)));
  }

  /** The items read so far, followed by those that a read of the rest returns. */
  function Prepend<T>(xs: seq<T>, r: Option<(seq<T>, Bytes)>): Option<(seq<T>, Bytes)> {
    match r
    case None => None
    case Some((ys, rest)) => Some((xs + ys, rest))
  }

  lemma PrependNothing<T>(r: Option<(seq<T>, Bytes)>)
    ensures Prepend([], r) == r
  {
    assert r.Some? ==> [] + r.value.0 == r.value.0;
  }

  lemma ListStep<T>(read: Bytes -> Option<(T, Bytes)>, xs: seq<T>, s: Bytes, n: nat)
    requires n > 0
    ensures var x := read(s);
            Prepend(xs, ReadList(read, s, n)) ==
              if x.None? then None else Prepend(xs + [x.value.0], ReadList(read, x.value.1, n - 1))
  {
    var x := read(s);
    if x.Some? && ReadList(read, x.value.1, n - 1).Some? {
      var ys := ReadList(read, x.value.1, n - 1).value.0;
      assert xs + ([x.value.0] + ys) == xs + [x.value.0] + ys;
    }
  }

  /** The loops that read the metadata list and the tensor table. */
  method ReadAll<T>(read: Bytes -> Option<(T, Bytes)>, s: Bytes, n: nat) returns (r: Option<(seq<T>, Bytes)>)
    ensures r == ReadList(read, s, n)
  {
    var xs, rest := [], s;
    ghost var target := ReadList(read, s, n);
    PrependNothing(target);
    for i := 0 to n
      invariant Prepend(xs, ReadList(read, rest, n - i)) == target
    {
      ListStep(read, xs, rest, n - i);
      var x := read(rest);
      if x.None? {
        return None;
      }
      xs, rest := xs + [x.value.0], x.value.1;
    }
    assert xs + [] == xs;
    return Some((xs, rest));
  }

  method FindAlignment(es: seq<Entry>) returns (align: int)
    ensures align == Alignment(es)
  {
    align := 32;
    for i := 0 to |es|
      invariant FoundAlignment(es[..i]) == Some(align)
    {
      assert es[..i + 1][..i] == es[..i];
      if es[i].key == ALIGNMENT_KEY {
        var found := IntOf(es[i].t, es[i].v);
        if found.None? {
          AlignmentStaysLost(es, i + 1);
          return 0;
        }
        align := found.value;
      }
    }
    assert es[..|es|] == es;
  }

  method ReadFixed(file: Bytes) returns (r: Option<(Header, Bytes)>)
    ensures r == ReadHeader(file)
  {
    if !(MAGIC <= file) {
      return None;
    }
    var version := ReadUint(file[4..], 4);
    if version.None? { return None; }
    var nTensors := ReadUint(version.value.1, 8);
    if nTensors.None? { return None; }
    var nEntries := ReadUint(nTensors.value.1, 8);
    if nEntries.None? { return None; }
    var entries := ReadAll(ReadEntry, nEntries.value.1, nEntries.value.0);
    if entries.None? { return None; }
    var tensors := ReadAll(ReadTensor, entries.value.1, nTensors.value.0);
    if tensors.None? { return None; }
    return Some((Header(version.value.0, entries.value.0, tensors.value.0), tensors.value.1));
  }

  /** read_gguf. */
  method ReadGguf(file: Bytes) returns (r: Option<(Header, Bytes)>)
    ensures r == ReadFile(file)
  {
    var header := ReadFixed(file);
    if header.None? { return None; }
    ReadHeaderConsumes(file);
    var align := FindAlignment(header.value.0.entries);
    if align <= 0 { return None; }
    return Some((header.value.0, DataSection(file, |file| - |header.value.1|, align)));
  }
}
