/**
 The incremental, bounded event-stream decoder of the console trace, against a whole-stream
 specification in the terms of sections 9.2.5 and 9.2.6 of the WHATWG HTML Living Standard.
 Dispatching appends to a log; decoding the JSON payload and the event name's UTF-8 is not modelled.
 */
module SseDecoder {
  import opened Helpers

  const MAX_EVENT_BYTES: nat := 256 * 1024
  const LF: byte := 10
  const CR: byte := 13
  const COLON: byte := 58
  const SPACE: byte := 32
  const BOM: Bytes := [0xEF, 0xBB, 0xBF]
  const DATA: Bytes := [100, 97, 116, 97]
  const EVENT: Bytes := [101, 118, 101, 110, 116]
  const DONE: Bytes := [91, 68, 79, 78, 69, 93]

  /** What the decoder emits: a message, the end marker, or that an event exceeded the limit. */
  datatype Entry = Message(event: Bytes, data: Bytes) | Finished | Skipped

  datatype State = State(line: Bytes, data: seq<Bytes>, event: Bytes, eventBytes: nat, dropped: bool,
                         lineDropped: bool, skipLf: bool, firstLine: bool, log: seq<Entry>)

  const INITIAL := State([], [], [], 0, false, false, false, true, [])

  // ---- fields of a line, dispatch of an event

  function IndexOf(s: Bytes, b: byte): (i: nat)
    ensures i <= |s| && (i < |s| ==> s[i] == b) && forall j :: 0 <= j < i ==> s[j] != b
  {
    if s == [] || s[0] == b then 0 else 1 + IndexOf(s[1..], b)
  }

  function FieldName(line: Bytes): Bytes {
    line[..IndexOf(line, COLON)]
  }

  function FieldValue(line: Bytes): Bytes {
    var i := IndexOf(line, COLON);
    if i == |line| then []
    else if i + 1 < |line| && line[i + 1] == SPACE then line[i + 2..]
    else line[i + 1..]
  }

  function Join(data: seq<Bytes>): Bytes {
    if data == [] then [] else if |data| == 1 then data[0] else data[0] + [LF] + Join(data[1..])
  }

  predicate IsSpace(b: byte) { 9 <= b <= 13 || b == SPACE }

  function StripLeft(s: Bytes): Bytes {
    if s != [] && IsSpace(s[0]) then StripLeft(s[1..]) else s
  }

  function StripRight(s: Bytes): Bytes {
    if s != [] && IsSpace(s[|s| - 1]) then StripRight(s[..|s| - 1]) else s
  }

  /** What dispatching an event with these data fields and this name emits. */
  function Dispatch(data: seq<Bytes>, event: Bytes): seq<Entry> {
    if data == [] then []
    else if StripRight(StripLeft(Join(data))) == DONE then [Finished]
    else [Message(event, Join(data))]
  }

  /** A field is its name, a colon, at most one space, and its value; a line without a colon is a name. */
  lemma FieldOf(name: Bytes, value: Bytes)
    requires COLON !in name
    ensures FieldName(name) == name && FieldValue(name) == []
    ensures FieldName(name + [58] + value) == FieldName(name + [58, 32] + value) == name
    ensures FieldValue(name + [58, 32] + value) == value
    ensures value == [] || value[0] != 32 ==> FieldValue(name + [58] + value) == value
  {
    var i := |name|;
    var bare, spaced := name + [COLON] + value, name + [COLON, SPACE] + value;
    assert IndexOf(name, COLON) == i;
    assert bare[i] == spaced[i] == COLON && spaced[i + 1] == SPACE;
    assert bare[..i] == name && spaced[..i] == name;
    assert bare[i + 1..] == value && spaced[i + 2..] == value;
  }

  /** A byte order mark in front is taken away, once, and nothing else. */
  lemma MarkIsStripped(line: Bytes)
    ensures StripBom([0xEF, 0xBB, 0xBF] + line) == line
    ensures !([0xEF, 0xBB, 0xBF] <= line) ==> StripBom(line) == line
  {
    assert ([0xEF, 0xBB, 0xBF] + line)[3..] == line;
  }

  /** The values of several data fields are joined by line feeds. */
  lemma {:induction false} JoinOf(a: seq<Bytes>, b: seq<Bytes>, v: Bytes)
    ensures Join([v]) == v
    ensures a != [] && b != [] ==> Join(a + b) == Join(a) + [10] + Join(b)
  {
    if a != [] && b != [] {
      assert (a + b)[1..] == a[1..] + b;
      if |a| > 1 {
        JoinOf(a[1..], b, v);
        assert Join(a) + [LF] + Join(b) == a[0] + [LF] + (Join(a[1..]) + [LF] + Join(b));
      } else {
        assert (a + b)[1..] == b;
      }
    }
  }

  /** White space in the sense of bytes.strip. */
  predicate Blank(s: Bytes) {
    forall b :: b in s ==> b in [9, 10, 11, 12, 13, 32]
  }

  lemma {:induction false} StripLeftIs(s: Bytes, pre: Bytes, rest: Bytes)
    requires s == pre + rest && Blank(pre)
    ensures StripLeft(s) == StripLeft(rest)
    decreases |pre|
  {
    if pre == [] {
      assert s == rest;
    } else {
      assert s[0] == pre[0] && s[0] in pre && s[1..] == pre[1..] + rest;
      StripLeftIs(s[1..], pre[1..], rest);
    }
  }

  lemma {:induction false} StripRightIs(s: Bytes, rest: Bytes, post: Bytes)
    requires s == rest + post && Blank(post)
    ensures StripRight(s) == StripRight(rest)
    decreases |post|
  {
    if post == [] {
      assert s == rest;
    } else {
      var n := |post| - 1;
      assert s[|s| - 1] == post[n] && post[n] in post && s[..|s| - 1] == rest + post[..n];
      StripRightIs(s[..|s| - 1], rest, post[..n]);
    }
  }

  lemma {:induction false} StripLeftCuts(s: Bytes) returns (pre: Bytes)
    ensures s == pre + StripLeft(s) && Blank(pre)
  {
    pre := [];
    if s != [] && IsSpace(s[0]) {
      var tail := StripLeftCuts(s[1..]);
      pre := [s[0]] + tail;
      assert s == [s[0]] + s[1..];
    }
  }

  lemma {:induction false} StripRightCuts(s: Bytes) returns (post: Bytes)
    ensures s == StripRight(s) + post && Blank(post)
  {
    post := [];
    if s != [] && IsSpace(s[|s| - 1]) {
      var front := StripRightCuts(s[..|s| - 1]);
      post := front + [s[|s| - 1]];
      assert s == s[..|s| - 1] + [s[|s| - 1]];
    }
  }

  /** The end marker, whatever white space is around it. */
  ghost predicate IsDone(raw: Bytes) {
    exists pre, post :: Blank(pre) && Blank(post) && raw == pre + [91, 68, 79, 78, 69, 93] + post
  }

  lemma DoneIsStripped(pre: Bytes, post: Bytes)
    requires Blank(pre) && Blank(post)
    ensures StripRight(StripLeft(pre + DONE + post)) == DONE
  {
    assert pre + DONE + post == pre + (DONE + post);
    StripLeftIs(pre + (DONE + post), pre, DONE + post);
    StripRightIs(DONE + post, DONE, post);
  }

  lemma StrippedIsDone(raw: Bytes)
    ensures StripRight(StripLeft(raw)) == DONE <==> IsDone(raw)
  {
    if StripRight(StripLeft(raw)) == DONE {
      var pre := StripLeftCuts(raw);
      var post := StripRightCuts(StripLeft(raw));
      assert raw == pre + DONE + post;
    }
    if IsDone(raw) {
      var pre, post :| Blank(pre) && Blank(post) && raw == pre + DONE + post;
      DoneIsStripped(pre, post);
    }
  }

  /** An event without data is nothing, one that only says [DONE] is the end, any other is a message. */
  lemma DispatchIs(data: seq<Bytes>, event: Bytes)
    ensures data == [] ==> Dispatch(data, event) == []
    ensures data != [] && IsDone(Join(data)) ==> Dispatch(data, event) == [Finished]
    ensures data != [] && !IsDone(Join(data)) ==> Dispatch(data, event) == [Message(event, Join(data))]
  {
    StrippedIsDone(Join(data));
  }

  // ---- the decoder, byte by byte

  /** Bytes of the current line arrive; the event is dropped once it is too large. */
  function Absorb(s: State, bytes: Bytes): State {
    if !s.dropped && s.eventBytes + |s.line| + |bytes| > MAX_EVENT_BYTES then
      s.(dropped := true, lineDropped := true, line := [], data := [], log := s.log + [Skipped])
    else if !s.dropped then s.(line := s.line + bytes)
    else if bytes != [] then s.(lineDropped := true)
    else s
  }

  function StripBom(line: Bytes): Bytes {
    if BOM <= line then line[3..] else line
  }

  /** A blank line: dispatch, unless the event was dropped, and start over. */
  function EndEvent(s: State): State {
    s.(data := [], event := [], eventBytes := 0, dropped := false,
       log := s.log + if s.dropped then [] else Dispatch(s.data, s.event))
  }

  /** Any other line of an event that was not dropped. */
  function AddLine(s: State, line: Bytes): State {
    s.(eventBytes := s.eventBytes + |line| + 1,
       data := if FieldName(line) == DATA then s.data + [FieldValue(line)] else s.data,
       event := if FieldName(line) == EVENT then FieldValue(line) else s.event)
  }

  /** The current line is complete. */
  function EndLine(s: State): State {
    var line := if s.firstLine then StripBom(s.line) else s.line;
    var t := s.(line := [], lineDropped := false, firstLine := false);
    if line == [] && !s.lineDropped then EndEvent(t)
    else if !s.dropped then AddLine(t, line)
    else t
  }

  predicate IsEnd(b: byte) { b == CR || b == LF }

  function Step(s: State, b: byte): State {
    if s.skipLf && b == LF then s.(skipLf := false)
    else if IsEnd(b) then EndLine(Absorb(s, [])).(skipLf := b == CR)
    else Absorb(s.(skipLf := false), [b])
  }

  function FeedAll(s: State, bytes: Bytes): State
    decreases |bytes|
  {
    if bytes == [] then s else FeedAll(Step(s, bytes[0]), bytes[1..])
  }

  /** Chunk independence: feeding the parts one after the other is feeding the whole. */
  lemma {:induction false} FeedConcat(s: State, a: Bytes, b: Bytes)
    ensures FeedAll(FeedAll(s, a), b) == FeedAll(s, a + b)
    decreases |a|
  {
    if a == [] {
      assert a + b == b;
    } else {
      FeedConcat(Step(s, a[0]), a[1..], b);
      assert (a + b)[1..] == a[1..] + b;
    }
  }

  /** Bytes that end no line have the same effect one by one and all at once. */
  lemma {:induction false} FeedSegment(s: State, seg: Bytes)
    requires !s.skipLf && seg != [] && forall b :: b in seg ==> !IsEnd(b)
    ensures FeedAll(s, seg) == Absorb(s, seg)
    ensures Absorb(Absorb(s, seg), []) == Absorb(s, seg)
    decreases |seg|
  {
    assert s.(skipLf := false) == s;
    var t := Absorb(s, [seg[0]]);
    if |seg| == 1 {
      assert seg == [seg[0]] && t.line + [] == t.line;
    } else {
      FeedSegment(t, seg[1..]);
      assert seg == [seg[0]] + seg[1..];
      assert s.line + seg == s.line + [seg[0]] + seg[1..];
      assert (s.line + seg) + [] == s.line + seg;
    }
  }

  /** The pending flag only matters for a line feed that follows. */
  lemma SkipIrrelevant(s: State, rest: Bytes)
    requires rest != [] && rest[0] != LF
    ensures FeedAll(s.(skipLf := true), rest) == FeedAll(s.(skipLf := false), rest)
  {
    var on, off := s.(skipLf := true), s.(skipLf := false);
    assert on.(skipLf := false) == off.(skipLf := false);
    if IsEnd(rest[0]) {
      assert Absorb(on, []).(skipLf := false) == Absorb(off, []).(skipLf := false);
      assert EndLine(Absorb(on, [])).(skipLf := true) == EndLine(Absorb(off, [])).(skipLf := true);
    }
    assert Step(on, rest[0]) == Step(off, rest[0]);
  }

  /** The first line end in s from i on, |s| if there is none. */
  function NextEnd(s: Bytes, i: nat): (r: nat)
    requires i <= |s|
    ensures i <= r <= |s| && (r < |s| ==> IsEnd(s[r])) && forall j :: i <= j < r ==> !IsEnd(s[j])
    decreases |s| - i
  {
    if i == |s| || IsEnd(s[i]) then i else NextEnd(s, i + 1)
  }

  /** One line end: the segment before it, then the end itself. */
  lemma FeedLine(s: State, chunk: Bytes, from: nat, end: nat)
    requires !s.skipLf && from <= |chunk| && end == NextEnd(chunk, from) < |chunk|
    ensures FeedAll(s, chunk[from..]) ==
            FeedAll(EndLine(Absorb(s, chunk[from..end])).(skipLf := chunk[end] == CR), chunk[end + 1..])
  {
    var seg, rest := chunk[from..end], chunk[end..];
    assert chunk[from..] == seg + rest && rest[1..] == chunk[end + 1..];
    FeedConcat(s, seg, rest);
    if seg == [] {
      assert FeedAll(s, seg) == s;
    } else {
      FeedSegment(s, seg);
    }
    assert FeedAll(Absorb(s, seg), rest) == FeedAll(Step(Absorb(s, seg), rest[0]), rest[1..]);
  }

  /** After a carriage return: skip a line feed that is already here, otherwise remember to. */
  lemma AfterReturn(s: State, chunk: Bytes, offset: nat)
    requires offset <= |chunk|
    ensures offset < |chunk| && chunk[offset] == LF ==>
              FeedAll(s.(skipLf := true), chunk[offset..]) == FeedAll(s.(skipLf := false), chunk[offset + 1..])
    ensures offset < |chunk| && chunk[offset] != LF ==>
              FeedAll(s.(skipLf := true), chunk[offset..]) == FeedAll(s.(skipLf := false), chunk[offset..])
  {
    if offset < |chunk| {
      var rest := chunk[offset..];
      assert rest[1..] == chunk[offset + 1..];
      if chunk[offset] == LF {
        assert Step(s.(skipLf := true), LF) == s.(skipLf := false);
      } else {
        SkipIrrelevant(s, rest);
      }
    }
  }

  class Decoder {
    var line: Bytes
    var data: seq<Bytes>
    var event: Bytes
    var eventBytes: nat
    var dropped: bool
    var lineDropped: bool
    var skipLf: bool
    var firstLine: bool
    var log: seq<Entry>  // the trace

    function View(): State
      reads this
    {
      State(line, data, event, eventBytes, dropped, lineDropped, skipLf, firstLine, log)
    }

    constructor ()
      ensures View() == INITIAL
    {
      line, data, event, eventBytes := [], [], [], 0;
      dropped, lineDropped, skipLf, firstLine, log := false, false, false, true, [];
    }

    method FindEnd(chunk: Bytes, from: nat) returns (end: nat)
      requires from <= |chunk|
      ensures end == NextEnd(chunk, from)
    {
      end := from;
      while end < |chunk| && chunk[end] != CR && chunk[end] != LF
        invariant from <= end <= |chunk| && NextEnd(chunk, end) == NextEnd(chunk, from)
      {
        end := end + 1;
      }
    }

    /** The limit check and the copy of one segment of the current line. */
    method Take(segment: Bytes)
      modifies this
      ensures View() == Absorb(old(View()), segment)
    {
      var length := |segment|;
      if !dropped && eventBytes + |line| + length > MAX_EVENT_BYTES {
        dropped, lineDropped := true, true;
        line := [];
        data := [];
        log := log + [Skipped];
      } else if !dropped {
        line := line + segment;
      } else if length > 0 {
        lineDropped := true;
      }
    }

    method CompleteEvent()
      modifies `data, `event, `eventBytes, `dropped, `log
      ensures View() == EndEvent(old(View()))
    {
      if !dropped {
        log := log + Dispatch(data, event);
      }
      data := [];
      event := [];
      eventBytes := 0;
      dropped := false;
    }

    method AddField()
      modifies `data, `event, `eventBytes
      ensures View() == AddLine(old(View()), line)
    {
      eventBytes := eventBytes + |line| + 1;
      var field, value := FieldName(line), FieldValue(line);
      if field == DATA {
        data := data + [value];
      } else if field == EVENT {
        event := value;
      }
    }

    /** _line. */
    method CompleteLine()
      modifies this
      ensures View() == EndLine(old(View()))
    {
      if firstLine {
        firstLine := false;
        if BOM <= line {
          line := line[3..];
        }
      }
      if line == [] && !lineDropped {
        CompleteEvent();
      } else if !dropped {
        AddField();
      }
      line := [];
      lineDropped := false;
    }

    /** A line feed right after a carriage return belongs to it, in this chunk or in the next one. */
    method AfterEnd(chunk: Bytes, end: nat) returns (next: nat)
      requires end < |chunk| && !skipLf
      modifies `skipLf
      ensures end < next <= |chunk| && (skipLf ==> next == |chunk|)
      ensures FeedAll(View(), chunk[next..]) == FeedAll(old(View()).(skipLf := chunk[end] == CR), chunk[end + 1..])
    {
      ghost var t := View();
      assert t.(skipLf := false) == t;
      next := end + 1;
      if chunk[end] == CR {
        AfterReturn(t, chunk, next);
        if next < |chunk| && chunk[next] == LF {
          next := next + 1;
        } else if next == |chunk| {
          skipLf := true;
          assert View() == t.(skipLf := true);
        }
      }
    }

    /** One iteration of feed: a segment and, if its line ends in this chunk, the line end. */
    method FeedLineOf(chunk: Bytes, offset: nat) returns (next: nat)
      requires offset < |chunk| && !skipLf
      modifies this
      ensures offset < next <= |chunk| && (skipLf ==> next == |chunk|)
      ensures FeedAll(View(), chunk[next..]) == FeedAll(old(View()), chunk[offset..])
    {
      ghost var s := View();
      var end := FindEnd(chunk, offset);
      var segment := chunk[offset..end];
      Take(segment);
      if end == |chunk| {
        assert chunk[offset..] == segment;
        FeedSegment(s, segment);
        return end;
      }
      FeedLine(s, chunk, offset, end);
      CompleteLine();
      next := AfterEnd(chunk, end);
    }

    /** feed: the decoder after any chunk is the decoder after its bytes. */
    method Feed(chunk: Bytes)
      modifies this
      ensures View() == FeedAll(old(View()), chunk)
    {
      var offset := 0;
      ghost var target := FeedAll(View(), chunk);
      assert chunk[0..] == chunk;
      if skipLf && chunk != [] {
        offset := if chunk[0] == LF then 1 else 0;
        AfterReturn(View(), chunk, 0);
        skipLf := false;
      }
      while offset < |chunk|
        invariant 0 <= offset <= |chunk|
        invariant skipLf ==> offset == |chunk|
        invariant FeedAll(View(), chunk[offset..]) == target
      {
        offset := FeedLineOf(chunk, offset);
      }
    }
  }
}
