/**
 What a whole event stream means, without a decoder: split it into lines, group the lines into
 events at the blank lines, interpret the fields of each event; and what the byte limit takes away.
 The theorems say that the incremental decoder computes exactly this, for every stream.
 */
module EventStream {
  import opened Helpers
  import opened SseDecoder

  // ---- lines

  /** What follows the line end at k: CR LF counts as one. */
  function Rest(s: Bytes, k: nat): (r: Bytes)
    requires k < |s|
    ensures |r| < |s|
  {
    if s[k] == CR && k + 1 < |s| && s[k + 1] == LF then s[k + 2..] else s[k + 1..]
  }

  /** The complete lines of the stream, without their ends. */
  function Lines(s: Bytes): seq<Bytes>
    decreases |s|
  {
    var k := NextEnd(s, 0);
    if k == |s| then [] else [s[..k]] + Lines(Rest(s, k))
  }

  /** The last, unterminated line. */
  function Tail(s: Bytes): Bytes
    decreases |s|
  {
    var k := NextEnd(s, 0);
    if k == |s| then s else Tail(Rest(s, k))
  }

  /** The first line end of text that begins with a line without one. */
  lemma FirstEnd(a: Bytes, rest: Bytes)
    requires forall x :: x in a ==> x != 10 && x != 13
    requires rest != [] ==> rest[0] == 10 || rest[0] == 13
    ensures NextEnd(a + rest, 0) == |a| && (a + rest)[..|a|] == a
  {
    var s := a + rest;
    forall i | 0 <= i < |a| ensures !IsEnd(s[i]) {
      assert s[i] == a[i] && a[i] in a;
    }
    assert rest != [] ==> IsEnd(s[|a|]);
  }

  lemma LineThen(a: Bytes, end: Bytes, b: Bytes)
    requires forall x :: x in a ==> x != 10 && x != 13
    requires end == [10] || end == [13, 10] || (end == [13] && (b != [] ==> b[0] != 10))
    ensures Lines(a + (end + b)) == [a] + Lines(b) && Tail(a + (end + b)) == Tail(b)
  {
    var s, k := a + (end + b), |a|;
    FirstEnd(a, end + b);
    assert s[k..] == end + b;
    assert forall i :: 0 <= i < |end| ==> s[k + i] == end[i];
    assert end == [13] && b != [] ==> s[k + 1] == b[0];
    assert Rest(s, k) == s[k + |end|..] == b;
  }

  /** A line ends at a line feed, at a carriage return, or at both in this order; what follows the last end is
      the tail. */
  lemma LinesOf(a: Bytes, b: Bytes)
    requires forall x :: x in a ==> x != 10 && x != 13
    ensures Lines(a) == [] && Tail(a) == a
    ensures Lines(a + ([10] + b)) == [a] + Lines(b) && Tail(a + ([10] + b)) == Tail(b)
    ensures Lines(a + ([13, 10] + b)) == [a] + Lines(b) && Tail(a + ([13, 10] + b)) == Tail(b)
    ensures b == [] || b[0] != 10 ==> Lines(a + ([13] + b)) == [a] + Lines(b) && Tail(a + ([13] + b)) == Tail(b)
  {
    FirstEnd(a, []);
    assert a + [] == a;
    LineThen(a, [10], b);
    LineThen(a, [13, 10], b);
    if b == [] || b[0] != 10 {
      LineThen(a, [13], b);
    }
  }

  /** A line as its event sees it, and the number of bytes it took on the wire. */
  datatype Line = Line(text: Bytes, wire: nat)

  /** A byte order mark is not part of the first line. */
  function Mark(first: bool, lines: seq<Bytes>): seq<Line> {
    if lines == [] then []
    else [Line(if first then StripBom(lines[0]) else lines[0], |lines[0]|)] + Mark(false, lines[1..])
  }

  // ---- events

  /** The index of the first blank line, |lines| if there is none. */
  function FirstBlank(lines: seq<Line>): (k: nat)
    ensures k <= |lines| && (k < |lines| ==> lines[k].text == []) && forall i :: 0 <= i < k ==> lines[i].text != []
  {
    if lines == [] || lines[0].text == [] then 0 else 1 + FirstBlank(lines[1..])
  }

  /** The values of the data fields of an event, in order. */
  function DataOf(block: seq<Line>): seq<Bytes> {
    if block == [] then []
    else (if FieldName(block[0].text) == DATA then [FieldValue(block[0].text)] else []) + DataOf(block[1..])
  }

  /** The value of its last event field. */
  function EventOf(block: seq<Line>, otherwise: Bytes): Bytes {
    if block == [] then otherwise
    else EventOf(block[1..], if FieldName(block[0].text) == EVENT then FieldValue(block[0].text) else otherwise)
  }

  /** The unbounded meaning: one dispatch per blank line, nothing for an unterminated event. */
  function Events(lines: seq<Line>): seq<Entry> {
    var k := FirstBlank(lines);
    if k == |lines| then []
    else Dispatch(DataOf(lines[..k]), EventOf(lines[..k], [])) + Events(lines[k + 1..])
  }

  // ---- the byte limit

  function Cost(block: seq<Line>): nat {
    if block == [] then 0 else |block[0].text| + 1 + Cost(block[1..])
  }

  /** Some line of the block does not fit after the ones before it. */
  predicate Overflows(block: seq<Line>, used: nat) {
    block != [] &&
    (used + block[0].wire > MAX_EVENT_BYTES || Overflows(block[1..], used + |block[0].text| + 1))
  }

  /** The bounded meaning. An event that does not fit is replaced by one Skipped. An event whose lines
      take exactly one byte more than the limit fits, but not its blank line: that line is then part
      of the dropped event, which lasts to the next blank line. */
  function Log(lines: seq<Line>, tail: nat, dropping: bool): seq<Entry>
    decreases |lines|
  {
    var k := FirstBlank(lines);
    var block := lines[..k];
    if dropping then
      if k == |lines| then [] else Log(lines[k + 1..], tail, false)
    else if k == |lines| then
      if Overflows(block, 0) || (tail > 0 && Cost(block) + tail > MAX_EVENT_BYTES) then [Skipped] else []
    else if Overflows(block, 0) then [Skipped] + Log(lines[k + 1..], tail, false)
    else if Cost(block) + lines[k].wire > MAX_EVENT_BYTES then [Skipped] + Log(lines[k + 1..], tail, true)
    else Dispatch(DataOf(block), EventOf(block, [])) + Log(lines[k + 1..], tail, false)
  }

  /** No event of the stream, and no unterminated rest, exceeds the limit. */
  predicate WithinLimit(lines: seq<Line>, tail: nat)
    decreases |lines|
  {
    var k := FirstBlank(lines);
    && !Overflows(lines[..k], 0)
    && (if k == |lines| then tail == 0 || Cost(lines) + tail <= MAX_EVENT_BYTES
        else Cost(lines[..k]) + lines[k].wire <= MAX_EVENT_BYTES && WithinLimit(lines[k + 1..], tail))
  }

  lemma {:induction false} LimitDoesNotMatter(lines: seq<Line>, tail: nat)
    requires WithinLimit(lines, tail)
    ensures Log(lines, tail, false) == Events(lines)
    decreases |lines|
  {
    var k := FirstBlank(lines);
    if k < |lines| {
      LimitDoesNotMatter(lines[k + 1..], tail);
    } else {
      assert lines[..k] == lines;
    }
  }

  // ---- the decoder sees the lines of the stream

  function FoldLines(s: State, lines: seq<Bytes>): State
    decreases |lines|
  {
    if lines == [] then s else FoldLines(EndLine(Absorb(s, lines[0])), lines[1..])
  }

  /** The first line of a stream, with its line end, whichever it is. */
  lemma FirstLineFed(s: State, bytes: Bytes)
    requires !s.skipLf && NextEnd(bytes, 0) < |bytes|
    ensures var k := NextEnd(bytes, 0);
            var t := EndLine(Absorb(s, bytes[..k]));
            !t.skipLf && FeedAll(s, bytes).(skipLf := false) == FeedAll(t, Rest(bytes, k)).(skipLf := false)
  {
    var k := NextEnd(bytes, 0);
    var t := EndLine(Absorb(s, bytes[..k]));
    assert bytes[0..] == bytes && bytes[0..k] == bytes[..k] && t.(skipLf := false) == t;
    FeedLine(s, bytes, 0, k);
    if bytes[k] == CR {
      AfterReturn(t, bytes, k + 1);
    }
  }

  lemma {:induction false} DecoderSeesLines(s: State, bytes: Bytes)
    requires !s.skipLf
    ensures var t := FoldLines(s, Lines(bytes));
            && !t.skipLf
            && FeedAll(s, bytes).(skipLf := false) == if Tail(bytes) == [] then t else Absorb(t, Tail(bytes))
    decreases |bytes|
  {
    var k := NextEnd(bytes, 0);
    if k == |bytes| {
      if bytes != [] {
        FeedSegment(s, bytes);
      }
    } else {
      var t := EndLine(Absorb(s, bytes[..k]));
      FirstLineFed(s, bytes);
      DecoderSeesLines(t, Rest(bytes, k));
      assert ([bytes[..k]] + Lines(Rest(bytes, k)))[1..] == Lines(Rest(bytes, k));
    }
  }

  // ---- and accumulates events

  /** The decoder's state between lines. */
  datatype Acc = Acc(data: seq<Bytes>, event: Bytes, used: nat, dropped: bool, log: seq<Entry>)

  function AccOf(s: State): Acc {
    Acc(s.data, s.event, s.eventBytes, s.dropped, s.log)
  }

  function TextStep(a: Acc, line: Line): Acc {
    if a.dropped then
      if line.wire == 0 then Acc([], [], 0, false, a.log) else a
    else if a.used + line.wire > MAX_EVENT_BYTES then a.(data := [], dropped := true, log := a.log + [Skipped])
    else if line.text == [] then Acc([], [], 0, false, a.log + Dispatch(a.data, a.event))
    else a.(used := a.used + |line.text| + 1,
            data := if FieldName(line.text) == DATA then a.data + [FieldValue(line.text)] else a.data,
            event := if FieldName(line.text) == EVENT then FieldValue(line.text) else a.event)
  }

  function FoldText(a: Acc, lines: seq<Line>): Acc
    decreases |lines|
  {
    if lines == [] then a else FoldText(TextStep(a, lines[0]), lines[1..])
  }

  ghost predicate BetweenLines(s: State) {
    s.line == [] && !s.lineDropped && (s.dropped ==> !s.firstLine)
  }

  lemma LineAcc(s: State, line: Bytes)
    requires BetweenLines(s)
    ensures var t := EndLine(Absorb(s, line));
            && BetweenLines(t) && !t.firstLine
            && AccOf(t) == TextStep(AccOf(s), Line(if s.firstLine then StripBom(line) else line, |line|))
  {
    assert [] + line == line;
  }

  lemma {:induction false} FoldAcc(s: State, lines: seq<Bytes>)
    requires BetweenLines(s)
    ensures BetweenLines(FoldLines(s, lines))
    ensures AccOf(FoldLines(s, lines)) == FoldText(AccOf(s), Mark(s.firstLine, lines))
    decreases |lines|
  {
    if lines != [] {
      LineAcc(s, lines[0]);
      FoldAcc(EndLine(Absorb(s, lines[0])), lines[1..]);
      var marked := Mark(s.firstLine, lines);
      assert marked[1..] == Mark(false, lines[1..]);
    }
  }

  lemma {:induction false} FoldTextConcat(a: Acc, x: seq<Line>, y: seq<Line>)
    ensures FoldText(a, x + y) == FoldText(FoldText(a, x), y)
    decreases |x|
  {
    if x == [] {
      assert x + y == y;
    } else {
      FoldTextConcat(TextStep(a, x[0]), x[1..], y);
      assert (x + y)[1..] == x[1..] + y;
    }
  }

  lemma DataAssoc(a: seq<Bytes>, v: Bytes, b: seq<Bytes>)
    ensures a + [v] + b == a + ([v] + b)
    ensures a + b == a + ([] + b)
  {
    assert [] + b == b;
  }

  /** The lines of one event, none blank: accumulated, or dropped with one Skipped. */
  lemma {:induction false} BlockFold(a: Acc, block: seq<Line>)
    requires forall i :: 0 <= i < |block| ==> block[i].text != [] && block[i].wire > 0
    ensures var t := FoldText(a, block);
            if a.dropped then t == a
            else if Overflows(block, a.used) then t.dropped && t.log == a.log + [Skipped]
            else t == Acc(a.data + DataOf(block), EventOf(block, a.event), a.used + Cost(block), false, a.log)
    decreases |block|
  {
    if block != [] {
      BlockFold(TextStep(a, block[0]), block[1..]);
      DataAssoc(a.data, FieldValue(block[0].text), DataOf(block[1..]));
    } else {
      assert a.data + [] == a.data;
    }
  }

  /** Only a lone byte order mark takes bytes on the wire and is blank all the same. */
  ghost predicate Ordinary(lines: seq<Line>, first: bool) {
    forall i :: 0 <= i < |lines| ==>
      if lines[i].text != [] then lines[i].wire > 0 else lines[i].wire == 0 || (first && i == 0)
  }

  lemma {:induction false} MarkIsOrdinary(first: bool, lines: seq<Bytes>)
    ensures Ordinary(Mark(first, lines), first)
  {
    if lines != [] {
      MarkIsOrdinary(false, lines[1..]);
    }
  }

  /** What is in the log once the unterminated rest of the stream has arrived too. */
  function LogAfter(a: Acc, tail: nat): seq<Entry> {
    a.log + if !a.dropped && tail > 0 && a.used + tail > MAX_EVENT_BYTES then [Skipped] else []
  }

  /** At the start of an event, or anywhere in a dropped one. */
  ghost predicate AtStart(a: Acc, dropping: bool) {
    a.dropped == dropping && (!dropping ==> a.data == [] && a.event == [] && a.used == 0)
  }

  /** The lines of the first event, then its blank line, then the rest. */
  lemma FoldSplit(a: Acc, lines: seq<Line>, k: nat)
    requires k < |lines|
    ensures FoldText(a, lines) == FoldText(TextStep(FoldText(a, lines[..k]), lines[k]), lines[k + 1..])
  {
    FoldTextConcat(a, lines[..k], lines[k..]);
    assert lines == lines[..k] + lines[k..] && lines[k..][1..] == lines[k + 1..];
  }

  lemma EntryAssoc(a: seq<Entry>, b: seq<Entry>, c: seq<Entry>)
    ensures a + b + c == a + (b + c)
  {}

  /** What the first event adds to the log, and whether what follows its blank line is still dropped. */
  function FirstEntries(lines: seq<Line>, dropping: bool): (seq<Entry>, bool) {
    var k := FirstBlank(lines);
    var block := lines[..k];
    if dropping || k == |lines| then ([], false)
    else if Overflows(block, 0) then ([Skipped], false)
    else if Cost(block) + lines[k].wire > MAX_EVENT_BYTES then ([Skipped], true)
    else (Dispatch(DataOf(block), EventOf(block, [])), false)
  }

  lemma LogSplit(lines: seq<Line>, tail: nat, dropping: bool)
    requires FirstBlank(lines) < |lines|
    ensures var (entries, still) := FirstEntries(lines, dropping);
            Log(lines, tail, dropping) == entries + Log(lines[FirstBlank(lines) + 1..], tail, still)
  {
    var (entries, still) := FirstEntries(lines, dropping);
    var rest := Log(lines[FirstBlank(lines) + 1..], tail, still);
    assert [] + rest == rest;
  }

  /** The lines of a block as the decoder accumulates them from the start of an event. */
  lemma BlockFoldAtStart(a: Acc, lines: seq<Line>, dropping: bool)
    requires AtStart(a, dropping) && Ordinary(lines, !dropping)
    ensures var block := lines[..FirstBlank(lines)];
            var t := FoldText(a, block);
            if dropping then t == a
            else if Overflows(block, 0) then t.dropped && t.log == a.log + [Skipped]
            else t == Acc(DataOf(block), EventOf(block, []), Cost(block), false, a.log)
  {
    var block := lines[..FirstBlank(lines)];
    BlockFold(a, block);
    assert [] + DataOf(block) == DataOf(block);
  }

  lemma FirstEventFold(a: Acc, lines: seq<Line>, dropping: bool)
    requires AtStart(a, dropping) && Ordinary(lines, !dropping) && FirstBlank(lines) < |lines|
    ensures var k := FirstBlank(lines);
            var u := TextStep(FoldText(a, lines[..k]), lines[k]);
            var (entries, still) := FirstEntries(lines, dropping);
            AtStart(u, still) && u.log == a.log + entries
  {
    BlockFoldAtStart(a, lines, dropping);
  }

  lemma {:induction false} FoldIsLog(a: Acc, lines: seq<Line>, tail: nat, dropping: bool)
    requires AtStart(a, dropping) && Ordinary(lines, !dropping)
    ensures LogAfter(FoldText(a, lines), tail) == a.log + Log(lines, tail, dropping)
    decreases |lines|
  {
    var k := FirstBlank(lines);
    if k == |lines| {
      assert lines[..k] == lines;
      BlockFoldAtStart(a, lines, dropping);
    } else {
      var u, rest := TextStep(FoldText(a, lines[..k]), lines[k]), lines[k + 1..];
      var (entries, still) := FirstEntries(lines, dropping);
      FoldSplit(a, lines, k);
      FirstEventFold(a, lines, dropping);
      FoldIsLog(u, rest, tail, still);
      LogSplit(lines, tail, dropping);
      EntryAssoc(a.log, entries, Log(rest, tail, still));
    }
  }

  lemma TailLog(t: State, tail: Bytes)
    requires BetweenLines(t)
    ensures (if tail == [] then t else Absorb(t, tail)).log == LogAfter(AccOf(t), |tail|)
  {}

  lemma LogOfLines(s: State, lines: seq<Bytes>, tail: Bytes)
    requires BetweenLines(s) && AtStart(AccOf(s), false) && s.firstLine
    ensures var t := FoldLines(s, lines);
            (if tail == [] then t else Absorb(t, tail)).log == s.log + Log(Mark(true, lines), |tail|, false)
  {
    FoldAcc(s, lines);
    MarkIsOrdinary(true, lines);
    FoldIsLog(AccOf(s), Mark(true, lines), |tail|, false);
    TailLog(FoldLines(s, lines), tail);
  }

  lemma LogFrom(s: State, bytes: Bytes)
    requires !s.skipLf && BetweenLines(s) && AtStart(AccOf(s), false) && s.firstLine
    ensures FeedAll(s, bytes).log == s.log + Log(Mark(true, Lines(bytes)), |Tail(bytes)|, false)
  {
    var lines, tail := Lines(bytes), Tail(bytes);
    DecoderSeesLines(s, bytes);
    LogOfLines(s, lines, tail);
  }

  /** For every byte stream, the log of the decoder is the bounded meaning of the stream. */
  lemma DecoderRefinesStream(bytes: Bytes)
    ensures FeedAll(INITIAL, bytes).log == Log(Mark(true, Lines(bytes)), |Tail(bytes)|, false)
  {
    var log := Log(Mark(true, Lines(bytes)), |Tail(bytes)|, false);
    LogFrom(INITIAL, bytes);
    assert INITIAL.log + log == log;
  }

  /** If no event exceeds the limit, it is the unbounded meaning: one dispatch per terminated event. */
  lemma DecoderRefinesUnboundedStream(bytes: Bytes)
    requires WithinLimit(Mark(true, Lines(bytes)), |Tail(bytes)|)
    ensures FeedAll(INITIAL, bytes).log == Events(Mark(true, Lines(bytes)))
  {
    DecoderRefinesStream(bytes);
    LimitDoesNotMatter(Mark(true, Lines(bytes)), |Tail(bytes)|);
  }

  // ---- what a sender writes is what the decoder logs

  /** An event as its sender means it: its name, and the values of its data fields. */
  datatype Sent = Sent(event: Bytes, values: seq<Bytes>)

  /** The line "event: " and the name. */
  function EventLine(name: Bytes): Bytes {
    [101, 118, 101, 110, 116] + [58, 32] + name
  }

  /** The line "data: " and the value. */
  function DataLine(value: Bytes): Bytes {
    [100, 97, 116, 97] + [58, 32] + value
  }

  function DataLines(values: seq<Bytes>): Bytes {
    if values == [] then [] else DataLines(values[..|values| - 1]) + (DataLine(values[|values| - 1]) + [10])
  }

  /** On the wire: its name, its values in order, a blank line. */
  function Wire(m: Sent): Bytes {
    EventLine(m.event) + [10] + DataLines(m.values) + [10]
  }

  function WireAll(sent: seq<Sent>): Bytes {
    if sent == [] then [] else WireAll(sent[..|sent| - 1]) + Wire(sent[|sent| - 1])
  }

  ghost predicate OneLine(s: Bytes) { forall b :: b in s ==> b != 10 && b != 13 }

  /** No line end inside a field, at most the limit on the wire, and data that is not the end marker. */
  ghost predicate Sendable(m: Sent) {
    && OneLine(m.event) && (forall v :: v in m.values ==> OneLine(v))
    && |Wire(m)| <= 256 * 1024 + 1
    && m.values != [] && !IsDone(Join(m.values))
  }

  function MessagesOf(sent: seq<Sent>): seq<Entry> {
    if sent == [] then []
    else var m := sent[|sent| - 1]; MessagesOf(sent[..|sent| - 1]) + [Message(m.event, Join(m.values))]
  }

  /** The decoder between two lines of an event that fits so far. */
  function Between(data: seq<Bytes>, event: Bytes, used: nat, first: bool, log: seq<Entry>): State {
    State([], data, event, used, false, false, false, first, log)
  }

  lemma LineFed(data: seq<Bytes>, event: Bytes, used: nat, first: bool, log: seq<Entry>, line: Bytes)
    requires OneLine(line) && used + |line| <= MAX_EVENT_BYTES
    requires first ==> line != [] && line[0] != BOM[0]
    ensures FeedAll(Between(data, event, used, first, log), line + [LF]) ==
            if line == [] then Between([], [], 0, false, log + Dispatch(data, event))
            else AddLine(Between(data, event, used, false, log), line)
  {
    var s := Between(data, event, used, first, log);
    FeedConcat(s, line, [LF]);
    if line == [] {
      assert FeedAll(s, line) == s;
    } else {
      FeedSegment(s, line);
    }
    var t := Absorb(s, line);
    assert t == s.(line := line);
    assert Absorb(t, []) == t;
    assert FeedAll(t, [LF]) == FeedAll(Step(t, LF), []) == EndLine(t).(skipLf := false);
    if first {
      assert !(BOM <= line);
    }
  }

  lemma FieldAdded(s: State, v: Bytes)
    ensures AddLine(s, EventLine(v)) == s.(eventBytes := s.eventBytes + |v| + 8, event := v)
    ensures AddLine(s, DataLine(v)) == s.(eventBytes := s.eventBytes + |v| + 7, data := s.data + [v])
  {
    assert FieldName(EventLine(v)) == EVENT && FieldValue(EventLine(v)) == v by {
      FieldOf(EVENT, v);
    }
    assert FieldName(DataLine(v)) == DATA && FieldValue(DataLine(v)) == v by {
      FieldOf(DATA, v);
    }
  }

  lemma EventFed(first: bool, log: seq<Entry>, name: Bytes)
    requires OneLine(name) && |name| + 7 <= MAX_EVENT_BYTES
    ensures FeedAll(Between([], [], 0, first, log), EventLine(name) + [10]) ==
            Between([], name, |name| + 8, false, log)
  {
    LineFed([], [], 0, first, log, EventLine(name));
    FieldAdded(Between([], [], 0, false, log), name);
  }

  lemma ValueFed(event: Bytes, used: nat, log: seq<Entry>, data: seq<Bytes>, v: Bytes)
    requires OneLine(v) && used + |v| + 6 <= MAX_EVENT_BYTES
    ensures FeedAll(Between(data, event, used, false, log), DataLine(v) + [10]) ==
            Between(data + [v], event, used + |v| + 7, false, log)
  {
    LineFed(data, event, used, false, log, DataLine(v));
    FieldAdded(Between(data, event, used, false, log), v);
  }

  /** One part after the other. */
  lemma FedThen(s: State, a: Bytes, b: Bytes, whole: Bytes)
    requires whole == a + b
    ensures FeedAll(s, whole) == FeedAll(FeedAll(s, a), b)
  {
    FeedConcat(s, a, b);
  }

  lemma {:induction false} DataFed(event: Bytes, used: nat, log: seq<Entry>, values: seq<Bytes>)
    requires forall v :: v in values ==> OneLine(v)
    requires used + |DataLines(values)| <= MAX_EVENT_BYTES
    ensures FeedAll(Between([], event, used, false, log), DataLines(values)) ==
            Between(values, event, used + |DataLines(values)|, false, log)
  {
    if values != [] {
      var front, v := values[..|values| - 1], values[|values| - 1];
      var lines := DataLines(front);
      assert v in values && values == front + [v];
      DataFed(event, used, log, front);
      ValueFed(event, used + |lines|, log, front, v);
      FedThen(Between([], event, used, false, log), lines, DataLine(v) + [10], DataLines(values));
    }
  }

  lemma BlankFed(data: seq<Bytes>, event: Bytes, used: nat, log: seq<Entry>)
    requires used <= MAX_EVENT_BYTES && data != [] && !IsDone(Join(data))
    ensures FeedAll(Between(data, event, used, false, log), [10]) ==
            Between([], [], 0, false, log + [Message(event, Join(data))])
  {
    LineFed(data, event, used, false, log, []);
    assert [] + [LF] == [10];
    DispatchIs(data, event);
  }

  lemma FedThrough(s: State, a: Bytes, t: State, b: Bytes, u: State, c: Bytes, w: State)
    requires FeedAll(s, a) == t && FeedAll(t, b) == u && FeedAll(u, c) == w
    ensures FeedAll(s, a + b + c) == w
  {
    FeedConcat(s, a, b);
    FeedConcat(s, a + b, c);
  }

  lemma MessageFed(m: Sent, first: bool, log: seq<Entry>)
    requires Sendable(m)
    ensures FeedAll(Between([], [], 0, first, log), Wire(m)) ==
            Between([], [], 0, false, log + [Message(m.event, Join(m.values))])
  {
    var s, head, data := Between([], [], 0, first, log), EventLine(m.event) + [10], DataLines(m.values);
    var named := Between([], m.event, |head|, false, log);
    var full := Between(m.values, m.event, |head| + |data|, false, log);
    var done := Between([], [], 0, false, log + [Message(m.event, Join(m.values))]);
    assert FeedAll(s, head) == named by { EventFed(first, log, m.event); }
    assert FeedAll(named, data) == full by { DataFed(m.event, |head|, log, m.values); }
    assert FeedAll(full, [10]) == done by { BlankFed(m.values, m.event, |head| + |data|, log); }
    FedThrough(s, head, named, data, full, [10], done);
  }

  /** Whatever events are sent, the log is exactly their messages: the name of each, and its values
      joined by line feeds. */
  lemma {:induction false} MessagesRoundTrip(sent: seq<Sent>)
    requires forall m :: m in sent ==> Sendable(m)
    ensures FeedAll(INITIAL, WireAll(sent)) == Between([], [], 0, sent == [], MessagesOf(sent))
  {
    if sent != [] {
      var n := |sent| - 1;
      var front := sent[..n];
      MessagesRoundTrip(front);
      MessageFed(sent[n], front == [], MessagesOf(front));
      FeedConcat(INITIAL, WireAll(front), Wire(sent[n]));
    }
  }

  // ---- bounded buffering

  function Total(data: seq<Bytes>): nat {
    if data == [] then 0 else Total(data[..|data| - 1]) + |data[|data| - 1]|
  }

  /** Every data line costs at least the five bytes of its field name and its line end more than its
      value; an event may be one byte over the limit only between two of its lines. */
  ghost predicate Bounded(s: State) {
    && Total(s.data) + 5 * |s.data| <= s.eventBytes
    && (s.eventBytes + |s.line| <= MAX_EVENT_BYTES || (s.line == [] && s.eventBytes == MAX_EVENT_BYTES + 1))
    && (s.dropped ==> s.line == [] && s.data == [])
  }

  lemma TotalAppend(data: seq<Bytes>, v: Bytes)
    ensures Total(data + [v]) == Total(data) + |v|
  {
    assert (data + [v])[..|data|] == data;
  }

  lemma DataFieldCost(line: Bytes)
    ensures FieldName(line) == DATA ==> |FieldValue(line)| + 4 <= |line|
  {}

  lemma AddLineBounded(s: State, line: Bytes)
    requires Bounded(s) && s.line == [] && !s.dropped && s.eventBytes + |line| <= MAX_EVENT_BYTES
    ensures Bounded(AddLine(s, line))
  {
    DataFieldCost(line);
    TotalAppend(s.data, FieldValue(line));
  }

  lemma EndLineBounded(s: State)
    requires Bounded(s) && (s.eventBytes + |s.line| <= MAX_EVENT_BYTES || s.dropped)
    ensures Bounded(EndLine(s))
  {
    var line := if s.firstLine then StripBom(s.line) else s.line;
    var t := s.(line := [], lineDropped := false, firstLine := false);
    if line == [] && !s.lineDropped {
      assert EndEvent(t).data == [];
    } else if !s.dropped {
      AddLineBounded(t, line);
    }
  }

  lemma StepBounded(s: State, b: byte)
    requires Bounded(s)
    ensures Bounded(Step(s, b))
  {
    if IsEnd(b) {
      assert s.line + [] == s.line;
      EndLineBounded(Absorb(s, []));
    }
  }

  /** For every stream, cut in whatever way, the buffered data and the current line stay within the limit. */
  lemma {:induction false} BuffersBounded(s: State, bytes: Bytes)
    requires Bounded(s)
    ensures var t := FeedAll(s, bytes);
            Bounded(t) && Total(t.data) + |t.line| <= MAX_EVENT_BYTES
    decreases |bytes|
  {
    if bytes != [] {
      StepBounded(s, bytes[0]);
      BuffersBounded(Step(s, bytes[0]), bytes[1..]);
    }
  }

  function Flatten(chunks: seq<Bytes>): Bytes {
    if chunks == [] then [] else Flatten(chunks[..|chunks| - 1]) + chunks[|chunks| - 1]
  }

  /** Decoding a stream in any chunks: the final state is that of one feed of the whole stream, the log
      is the bounded meaning of the stream, and at no point is more than the limit buffered. The result
      is finish's: whether an unterminated line or undispatched data remains. */
  method DecodeChunks(chunks: seq<Bytes>) returns (d: Decoder, incomplete: bool)
    ensures d.View() == FeedAll(INITIAL, Flatten(chunks))
    ensures d.log == Log(Mark(true, Lines(Flatten(chunks))), |Tail(Flatten(chunks))|, false)
    ensures Total(d.data) + |d.line| <= MAX_EVENT_BYTES
    ensures incomplete <==> d.line != [] || d.data != [] || d.lineDropped
  {
    d := new Decoder();
    for i := 0 to |chunks|
      invariant d.View() == FeedAll(INITIAL, Flatten(chunks[..i])) && fresh(d)
    {
      assert chunks[..i + 1][..i] == chunks[..i];
      FeedConcat(INITIAL, Flatten(chunks[..i]), chunks[i]);
      d.Feed(chunks[i]);
      BuffersBounded(INITIAL, Flatten(chunks[..i + 1]));
      assert Total(d.data) + |d.line| <= MAX_EVENT_BYTES;
    }
    assert chunks[..|chunks|] == chunks;
    DecoderRefinesStream(Flatten(chunks));
    BuffersBounded(INITIAL, Flatten(chunks));
    incomplete := d.line != [] || d.data != [] || d.lineDropped;
  }
}
