/**
 Stop words while streaming: the text part of process_token and find_stopping_strings.
 Text is a sequence of bytes; whether it ends inside a UTF-8 character, whether the token ends the
 generation, and whether another limit is reached are inputs.
 */
module StopWords {
  import opened Helpers

  type Text = string

  predicate OccursAt(text: Text, word: Text, i: int) {
    0 <= i && i + |word| <= |text| && text[i..i + |word|] == word
  }

  /** std::string::find: the first occurrence at or after from. */
  function Find(text: Text, word: Text, from: nat): (r: Option<nat>)
    ensures r.Some? ==> r.value + |word| <= |text|
    decreases |text| - from
  {
    if from + |word| > |text| then None
    else if text[from..from + |word|] == word then Some(from)
    else Find(text, word, from + 1)
  }

  lemma {:induction false} FindFirst(text: Text, word: Text, from: nat)
    requires word != []
    ensures match Find(text, word, from)
            case None => forall i :: from <= i ==> !OccursAt(text, word, i)
            case Some(p) =>
              from <= p && OccursAt(text, word, p) && forall i :: from <= i < p ==> !OccursAt(text, word, i)
    decreases |text| - from
  {
    if from + |word| <= |text| && text[from..from + |word|] != word {
      FindFirst(text, word, from + 1);
    }
  }

  /** string_find_partial_stop: where the longest suffix of the text that begins the word starts. */
  function FindPartial(text: Text, word: Text, len: nat): (r: Option<nat>)
    requires len <= |text| && len <= |word|
    ensures r.Some? ==> r.value < |text|
  {
    if len == 0 then None
    else if text[|text| - len..] == word[..len] then Some(|text| - len)
    else FindPartial(text, word, len - 1)
  }

  lemma SuffixBegins(text: Text, word: Text, len: nat)
    requires len <= |text| && len <= |word|
    ensures text[|text| - len..] <= word <==> text[|text| - len..] == word[..len]
  {}

  lemma {:induction false} FindPartialSuffix(text: Text, word: Text, len: nat)
    requires len <= |text| && len <= |word|
    ensures match FindPartial(text, word, len)
            case None => forall i :: |text| - len <= i < |text| ==> !(text[i..] <= word)
            case Some(p) => p < |text| && text[p..] <= word
  {
    SuffixBegins(text, word, len);
    if len > 0 && text[|text| - len..] != word[..len] {
      FindPartialSuffix(text, word, len - 1);
    }
  }

  /** It is the longest suffix that does. */
  lemma {:induction false} FindPartialLongest(text: Text, word: Text, len: nat, i: nat)
    requires len <= |text| && len <= |word| && FindPartial(text, word, len).Some?
    requires |text| - len <= i < FindPartial(text, word, len).value
    ensures !(text[i..] <= word)
  {
    SuffixBegins(text, word, len);
    if i > |text| - len {
      FindPartialLongest(text, word, len - 1, i);
    }
  }

  /** Where the search for a complete stop word begins: only as far back as a word that the last token
      completed can reach. */
  function WindowStart(size: nat, word: Text, last: nat): nat {
    if size > |word| + last then size - (|word| + last) else 0
  }

  /** The position find_stopping_strings considers for one word. */
  function Candidate(text: Text, word: Text, last: nat, full: bool): Option<nat> {
    if full then Find(text, word, WindowStart(|text|, word, last))
    else FindPartial(text, word, Min(|text|, |word|))
  }

  /** What find_stopping_strings returns: the smallest of the words' positions, if any word has one. */
  ghost predicate Smallest(words: seq<Text>, text: Text, last: nat, full: bool, pos: Option<nat>) {
    if pos.None? then forall w :: w in words ==> Candidate(text, w, last, full).None?
    else
      && (exists w :: w in words && Candidate(text, w, last, full) == pos)
      && forall w :: w in words && Candidate(text, w, last, full).Some?
          ==> pos.value <= Candidate(text, w, last, full).value
  }

  /** find_stopping_strings: the smallest of the words' positions. */
  method FindStoppingStrings(words: seq<Text>, text: Text, last: nat, full: bool)
      returns (pos: Option<nat>, stopping: Option<Text>)
    ensures Smallest(words, text, last, full, pos)
    ensures pos.Some? <==> stopping.Some?
    ensures pos.Some? ==> stopping.value in words && Candidate(text, stopping.value, last, full) == pos
  {
    pos, stopping := None, None;
    for k := 0 to |words|
      invariant Smallest(words[..k], text, last, full, pos) && (pos.Some? <==> stopping.Some?)
      invariant pos.Some? ==> stopping.value in words[..k] && Candidate(text, stopping.value, last, full) == pos
    {
      var p := Candidate(text, words[k], last, full);
      assert words[..k + 1] == words[..k] + [words[k]];
      if p.Some? && (pos.None? || p.value < pos.value) {
        pos, stopping := p, Some(words[k]);
      }
    }
    assert words[..|words|] == words;
  }

  /** The windowed search for a word finds what a search of the whole text finds, if and only if the text
      before the last token does not contain the word ending before its last byte. */
  lemma WindowExactIff(before: Text, piece: Text, word: Text)
    requires word != []
    ensures Find(before + piece, word, WindowStart(|before + piece|, word, |piece|)) == Find(before + piece, word, 0)
            <==> forall i :: i + |word| < |before| ==> !OccursAt(before, word, i)
  {
    var text := before + piece;
    var from := WindowStart(|text|, word, |piece|);
    FindFirst(text, word, from);
    FindFirst(text, word, 0);
    forall i | 0 <= i && i + |word| <= |before| ensures OccursAt(before, word, i) == OccursAt(text, word, i) {
      assert text[i..i + |word|] == before[i..i + |word|];
    }
  }

  /** A stop word can be missed: it was completed by a piece that also began a multi-byte character (so
      nothing was searched then), and the window of the piece that ends the character starts after it. */
  lemma MissedStopWord()
    ensures var before, piece, word := "ab~", "~", "ab";
            && Find(before + piece, word, WindowStart(|before + piece|, word, |piece|)) == None
            && Find(before + piece, word, 0) == Some(0)
  {
    var text := "ab~" + "~";
    assert text == "ab~~" && text[0..2] == "ab" && text[1..3] == "b~" && text[2..4] == "~~";
    assert Find(text, "ab", 2) == Find(text, "ab", 3) == None;
  }

  /** No stop word could still be completed starting inside s. */
  ghost predicate Settled(words: seq<Text>, s: Text) {
    forall w, i :: w in words && 0 <= i < |s| ==> !(s[i..] <= w)
  }

  ghost predicate NoStop(words: seq<Text>, s: Text) {
    forall w, i :: w in words ==> !OccursAt(s, w, i)
  }

  /** p is the first position at which any stop word occurs. */
  ghost predicate EarliestStop(words: seq<Text>, text: Text, p: nat) {
    (exists w :: w in words && OccursAt(text, w, p)) && forall w, i :: w in words && i < p ==> !OccursAt(text, w, i)
  }

  lemma OccursInPrefix(a: Text, b: Text, w: Text, i: int)
    ensures i + |w| <= |a| ==> (OccursAt(a + b, w, i) <==> OccursAt(a, w, i))
  {
    if 0 <= i && i + |w| <= |a| {
      assert (a + b)[i..i + |w|] == a[i..i + |w|];
    }
  }

  lemma OccursAcross(a: Text, b: Text, w: Text, i: int)
    ensures 0 <= i < |a| < i + |w| && OccursAt(a + b, w, i) ==> a[i..] <= w
  {
    if 0 <= i < |a| < i + |w| && OccursAt(a + b, w, i) {
      assert a[i..] == (a + b)[i..i + |w|][..|a| - i];
    }
  }

  /** No stop word occurs at a position inside settled text, whatever follows. */
  lemma SettledExcludes(words: seq<Text>, s: Text, rest: Text, more: Text, w: Text, i: int)
    requires Settled(words, s) && NoStop(words, s + rest) && w in words && i < |s|
    ensures !OccursAt(s + (rest + more), w, i)
  {
    assert s + (rest + more) == s + rest + more;
    OccursInPrefix(s + rest, more, w, i);
    OccursAcross(s, rest + more, w, i);
  }

  /** Text whose new part ends in no beginning of a stop word is settled. */
  lemma SettleMore(words: seq<Text>, s: Text, rest: Text)
    requires Settled(words, s) && EndsInNoBeginning(words, rest, 0)
    ensures Settled(words, s + rest)
  {
    var all := s + rest;
    forall w, i | w in words && 0 <= i < |all| ensures !(all[i..] <= w) {
      if i < |s| {
        assert all[i..][..|s| - i] == s[i..];
        assert !(s[i..] <= w);
      } else {
        assert all[i..] == rest[i - |s|..];
      }
    }
  }

  lemma OccursShift(s: Text, t: Text, w: Text, i: int)
    ensures i >= 0 ==> (OccursAt(s + t, w, |s| + i) <==> OccursAt(t, w, i))
  {
    if 0 <= i && i + |w| <= |t| {
      assert (s + t)[|s| + i..|s| + i + |w|] == t[i..i + |w|];
    }
  }

  ghost predicate OccursHere(words: seq<Text>, text: Text, p: nat) {
    exists w :: w in words && OccursAt(text, w, p)
  }

  /** What is known when a piece arrives: s was streamed, rest is held back, no stop word so far. */
  ghost predicate Clean(words: seq<Text>, s: Text, rest: Text) {
    (forall w :: w in words ==> w != []) && Settled(words, s) && NoStop(words, s + rest)
  }

  /** The windowed search of the unsent text decides where a word first occurs in the whole text. */
  lemma SearchIsExact(words: seq<Text>, s: Text, rest: Text, piece: Text, w: Text)
    requires Clean(words, s, rest) && w in words
    ensures match Candidate(rest + piece, w, |piece|, true)
            case None => forall i :: !OccursAt(s + (rest + piece), w, i)
            case Some(p) =>
              && OccursAt(s + (rest + piece), w, |s| + p)
              && forall i :: i < |s| + p ==> !OccursAt(s + (rest + piece), w, i)
  {
    forall i ensures !OccursAt(rest, w, i) {
      OccursShift(s, rest, w, i);
    }
    WindowExactIff(rest, piece, w);
    FindFirst(rest + piece, w, 0);
    forall i ensures OccursAt(s + (rest + piece), w, i) <==> i >= |s| && OccursAt(rest + piece, w, i - |s|) {
      if i < |s| {
        SettledExcludes(words, s, rest, piece, w, i);
      } else {
        OccursShift(s, rest + piece, w, i - |s|);
      }
    }
  }

  /** No suffix of the text that starts at from or later begins a stop word. */
  ghost predicate EndsInNoBeginning(words: seq<Text>, text: Text, from: nat) {
    forall w, i :: w in words && from <= i < |text| ==> !(text[i..] <= w)
  }

  lemma CutOccurs(words: seq<Text>, text: Text, last: nat, cut: Option<nat>)
    requires (forall w :: w in words ==> w != []) && Smallest(words, text, last, true, cut) && cut.Some?
    ensures cut.value <= |text| && OccursHere(words, text, cut.value)
  {
    var w :| w in words && Candidate(text, w, last, true) == cut;
    FindFirst(text, w, WindowStart(|text|, w, last));
    assert OccursAt(text, w, cut.value);
  }

  /** While pieces end complete, the cut is at the earliest stop word of the whole text. */
  lemma CutIsEarliest(words: seq<Text>, s: Text, rest: Text, piece: Text, cut: Option<nat>)
    requires Clean(words, s, rest) && Smallest(words, rest + piece, |piece|, true, cut)
    ensures var text := s + (rest + piece);
            if cut.Some? then EarliestStop(words, text, |s| + cut.value) else NoStop(words, text)
  {
    var text := s + (rest + piece);
    forall w | w in words
      ensures match Candidate(rest + piece, w, |piece|, true)
              case None => forall i :: !OccursAt(text, w, i)
              case Some(p) => OccursAt(text, w, |s| + p) && forall i :: i < |s| + p ==> !OccursAt(text, w, i)
    {
      SearchIsExact(words, s, rest, piece, w);
    }
  }

  /** Text is held back exactly if it ends in the beginning of a stop word. */
  lemma HeldBackIff(words: seq<Text>, text: Text, last: nat, partial: Option<nat>)
    requires Smallest(words, text, last, false, partial)
    ensures partial.None? <==> EndsInNoBeginning(words, text, 0)
  {
    forall w | w in words
      ensures match Candidate(text, w, last, false)
              case None => forall i :: 0 <= i < |text| ==> !(text[i..] <= w)
              case Some(p) => p < |text| && text[p..] <= w
    {
      FindPartialSuffix(text, w, Min(|text|, |w|));
    }
    if partial.Some? {
      var w :| w in words && Candidate(text, w, last, false) == partial;
      assert text[partial.value..] <= w;
    }
  }

  /** The decisions of process_token about the unsent text: where to cut it at a stop word, and if
      nothing is cut, whether to send it. s is the text streamed before, rest what was held back. */
  method Scan(words: seq<Text>, ghost s: Text, ghost rest: Text, piece: Text, test: Text, eog: bool)
      returns (cut: Option<nat>, send: bool)
    requires test == rest + piece && forall w :: w in words ==> w != []
    ensures cut.Some? ==> cut.value <= |test| && send && OccursHere(words, test, cut.value)
    ensures Clean(words, s, rest) ==>
              if cut.Some? then EarliestStop(words, s + test, |s| + cut.value) else NoStop(words, s + test)
    ensures cut.None? ==> (send <==> eog || EndsInNoBeginning(words, test, 0))
  {
    send := true;
    var stopping;
    cut, stopping := FindStoppingStrings(words, test, |piece|, true);
    if cut.Some? {
      CutOccurs(words, test, |piece|, cut);
    }
    if Clean(words, s, rest) {
      CutIsEarliest(words, s, rest, piece, cut);
    }
    if cut.None? && !eog {
      var partial;
      partial, stopping := FindStoppingStrings(words, test, |piece|, false);
      send := partial.None?;
      HeldBackIff(words, test, |piece|, partial);
    }
  }

  lemma OccursFurtherOn(words: seq<Text>, s: Text, test: Text, p: nat)
    requires OccursHere(words, test, p)
    ensures OccursHere(words, s + test, |s| + p)
  {
    var w :| w in words && OccursAt(test, w, p);
    OccursShift(s, test, w, p);
  }

  class TextStream {
    const words: seq<Text>
    var generated: Text
    var nSent: nat
    var running: bool
    var stoppedByWord: bool
    ghost var streamed: Text  // the pieces sent to the client, concatenated
    ghost var full: Text      // everything the model produced
    ghost var clean: bool     // no piece so far ended inside a character

    ghost predicate Valid()
      reads this
    {
      && (forall w :: w in words ==> w != [])
      && nSent <= |generated|
      && streamed == generated[..nSent]
      && generated <= full && (!stoppedByWord ==> generated == full)
      && (stoppedByWord ==> streamed == generated && OccursHere(words, full, |generated|))
      && (running ==> generated == full && Settled(words, generated[..nSent]) && !stoppedByWord)
      && (running && clean ==> NoStop(words, full))
      && (running && clean && nSent < |generated| ==> HeldForReason())
      && (clean && stoppedByWord ==> generated == streamed <= full && EarliestStop(words, full, |generated|))
    }

    /** Text is held back only while it ends in the beginning of a stop word. */
    ghost predicate HeldForReason()
      requires nSent <= |generated|
      reads this
    {
      exists w, i :: w in words && nSent <= i < |generated| && generated[i..] <= w
    }

    constructor (words: seq<Text>)
      requires forall w :: w in words ==> w != []
      ensures Valid() && this.words == words && running && clean && full == ""
    {
      this.words := words;
      generated, nSent, running, stoppedByWord, streamed, full, clean := "", 0, true, false, "", "", true;
    }

    /** Cut the text at the stop word, if there is one, and send everything that is unsent. */
    method Deliver(ghost s: Text, test: Text, cut: Option<nat>) returns (sent: Text)
      requires generated == s + test && nSent == |s| && streamed == s && (cut.Some? ==> cut.value <= |test|)
      modifies `generated, `nSent, `streamed, `running, `stoppedByWord
      ensures sent == if cut.Some? then test[..cut.value] else test
      ensures generated == streamed == s + sent && nSent == |generated|
      ensures if cut.Some? then stoppedByWord && !running
              else stoppedByWord == old(stoppedByWord) && running == old(running)
    {
      if cut.Some? {
        stoppedByWord, running := true, false;
        generated := generated[..nSent + cut.value];
      }
      sent := generated[nSent..];
      nSent := nSent + |sent|;
      streamed := streamed + sent;
    }

    /** A complete piece: search, then deliver or hold back. */
    method ProcessComplete(ghost s: Text, ghost rest: Text, piece: Text, eog: bool) returns (sent: Text)
      requires running && !stoppedByWord && (forall w :: w in words ==> w != [])
      requires full == generated == s + (rest + piece) && nSent == |s| && streamed == s
      requires Settled(words, s) && (clean ==> NoStop(words, s + rest))
      modifies `generated, `nSent, `streamed, `running, `stoppedByWord
      ensures nSent <= |generated| && streamed == s + sent == generated[..nSent]
      ensures running && !eog ==> Valid()
      ensures generated <= full && (!stoppedByWord ==> generated == full)
      ensures stoppedByWord <==> !running
      ensures stoppedByWord ==> streamed == generated && OccursHere(words, full, |generated|)
      ensures eog ==> streamed == generated
      // without a stop word, the unsent text is held back if and only if it ends in the beginning of one
      ensures !eog && !stoppedByWord ==> (streamed == full <==> EndsInNoBeginning(words, full, |s|))
      ensures clean ==> (stoppedByWord <==> !NoStop(words, full))
      ensures clean && stoppedByWord ==> generated == streamed <= full && EarliestStop(words, full, |generated|)
    {
      var test := generated[nSent..];
      assert test == rest + piece;
      var cut, send := Scan(words, s, rest, piece, test, eog);
      if send {
        sent := Deliver(s, test, cut);
        if cut.Some? {
          OccursFurtherOn(words, s, test, cut.value);
        }
        if running && !eog {
          SettleMore(words, s, test);
          assert generated[..nSent] == generated;
        }
      } else {
        sent := "";
        var w, i :| w in words && 0 <= i < |test| && test[i..] <= w;
        assert generated[nSent + i..] == test[i..];
      }
    }

    /** The text part of process_token. */
    method ProcessToken(piece: Text, incomplete: bool, eog: bool, halt: bool) returns (sent: Text)
      requires Valid() && running
      modifies this
      ensures Valid()
      ensures full == old(full) + piece && streamed == old(streamed) + sent
      ensures clean == (old(clean) && !incomplete)
      ensures incomplete ==> sent == "" && !stoppedByWord
      ensures running <==> !eog && !halt && !stoppedByWord
      // a piece that ends the generation delivers everything, unless it ends inside a character or a stop word cuts
      ensures eog && !incomplete && !stoppedByWord ==> streamed == full
      // any other end leaves unsent what was held back: all is delivered if and only if the unsent text ends in no
      // beginning of a stop word
      ensures !incomplete && !eog && !stoppedByWord
              ==> (streamed == full <==> EndsInNoBeginning(words, full, old(nSent)))
      // as long as every piece left the text complete, the request ends by a stop word exactly when one occurs
      ensures clean ==> (stoppedByWord <==> !NoStop(words, full))
    {
      ghost var s, rest := generated[..nSent], generated[nSent..];
      assert generated == s + rest;
      full := full + piece;
      generated := generated + piece;
      sent := "";
      if incomplete {
        clean := false;
        assert generated[..nSent] == s;
      } else {
        assert s + rest + piece == s + (rest + piece);
        sent := ProcessComplete(s, rest, piece, eog);
      }
      if eog || halt {
        running := false;
      }
    }
  }

  /** A limit that is reached while a beginning of a stop word is held back: that text is never sent. */
  method LimitDropsHeldText() returns (stream: TextStream)
    ensures stream.Valid() && stream.words == ["ab"] && !stream.running && !stream.stoppedByWord
    ensures stream.full == "a" && stream.streamed == ""
  {
    stream := new TextStream(["ab"]);
    var sent := stream.ProcessToken("a", false, false, true);
    ghost var full := stream.full;
    assert full == "a" && !OccursAt(full, "ab", 0);
    assert !OccursHere(["ab"], full, |stream.generated|);
    assert "ab" in ["ab"] && full[0..] == "a" && "a" <= "ab";
    assert !EndsInNoBeginning(["ab"], full, 0);
  }
}
