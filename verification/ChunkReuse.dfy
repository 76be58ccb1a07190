/**
 Reuse of a slot's cached prompt for a new one (pre_decode, SLOT_STATE_STARTED): keep the common
 prefix, then shift later chunks of the cache that reappear in the new prompt down to their new
 positions, in the token list and in the memory. For memories that keep every position (no
 sliding window, no context checkpoints).
 */
module ChunkReuse {
  import opened KvMemory

  /** The n tokens of a from i equal the n tokens of b from j. */
  ghost predicate SameRun(a: seq<Token>, b: seq<Token>, i: nat, j: nat, n: nat) {
    i + n <= |a| && j + n <= |b| && forall q :: j <= q < j + n ==> a[q + (i - j)] == b[q]
  }

  /** The length of the longest common run of a from i and b from j. */
  function MatchLen(a: seq<Token>, b: seq<Token>, i: nat, j: nat): (n: nat)
    requires i <= |a| && j <= |b|
    ensures i + n <= |a| && j + n <= |b|
    decreases |a| - i
  {
    if i < |a| && j < |b| && a[i] == b[j] then 1 + MatchLen(a, b, i + 1, j + 1) else 0
  }

  lemma {:induction false} MatchLenIsLongest(a: seq<Token>, b: seq<Token>, i: nat, j: nat)
    requires i <= |a| && j <= |b|
    ensures SameRun(a, b, i, j, MatchLen(a, b, i, j))
    ensures forall m :: MatchLen(a, b, i, j) < m ==> !SameRun(a, b, i, j, m)
    decreases |a| - i
  {
    if i < |a| && j < |b| && a[i] == b[j] {
      var n := MatchLen(a, b, i + 1, j + 1);
      MatchLenIsLongest(a, b, i + 1, j + 1);
      forall m | n + 1 < m ensures !SameRun(a, b, i, j, m) {
        assert !SameRun(a, b, i + 1, j + 1, m - 1);
      }
    }
  }

  /** Cached positions [src, src + len) become positions [dst, dst + len) of the new prompt. */
  datatype Chunk = Chunk(src: nat, dst: nat, len: nat)

  function Total(chunks: seq<Chunk>): nat {
    if chunks == [] then 0 else chunks[0].len + Total(chunks[1..])
  }

  /** The chunks that are reused, as a function of the two prompts only: scan the cache once, taking
      every run of at least minLen tokens that matches at the current end of the new prompt. */
  function Chunks(cache: seq<Token>, input: seq<Token>, hc: nat, hp: nat, minLen: nat): seq<Chunk>
    requires minLen > 0
    decreases |cache| - hc
  {
    if hc >= |cache| || hp >= |input| then [] else
      var n := MatchLen(cache, input, hc, hp);
      if n >= minLen then [Chunk(hc, hp, n)] + Chunks(cache, input, hc + n, hp + n, minLen)
      else Chunks(cache, input, hc + 1, hp, minLen)
  }

  /** Chunks lie one after the other in the new prompt from hp on, in order and without overlap in
      the cache from hc on, each at least minLen long and equal to the tokens it stands for. */
  ghost predicate ChunksFrom(chunks: seq<Chunk>, cache: seq<Token>, input: seq<Token>, hc: nat, hp: nat, minLen: nat) {
    chunks == [] ||
    (var c := chunks[0];
     && c.dst == hp && hc <= c.src && minLen <= c.len && c.src + c.len <= |cache| && c.dst + c.len <= |input|
     && cache[c.src..c.src + c.len] == input[c.dst..c.dst + c.len]
     && ChunksFrom(chunks[1..], cache, input, c.src + c.len, c.dst + c.len, minLen))
  }

  lemma ChunksWeaken(chunks: seq<Chunk>, cache: seq<Token>, input: seq<Token>, hc: nat, hc': nat, hp: nat, minLen: nat)
    requires ChunksFrom(chunks, cache, input, hc', hp, minLen) && hc <= hc'
    ensures ChunksFrom(chunks, cache, input, hc, hp, minLen)
  {}

  lemma ChunksCons(c: Chunk, rest: seq<Chunk>, cache: seq<Token>, input: seq<Token>, minLen: nat)
    requires minLen <= c.len && SameRun(cache, input, c.src, c.dst, c.len)
    requires ChunksFrom(rest, cache, input, c.src + c.len, c.dst + c.len, minLen)
    ensures ChunksFrom([c] + rest, cache, input, c.src, c.dst, minLen) && Total([c] + rest) == c.len + Total(rest)
  {
    assert ([c] + rest)[1..] == rest;
    assert cache[c.src..c.src + c.len] == input[c.dst..c.dst + c.len];
  }

  lemma {:induction false} ChunksAreSound(cache: seq<Token>, input: seq<Token>, hc: nat, hp: nat, minLen: nat)
    requires minLen > 0 && hp <= |input|
    ensures var chunks := Chunks(cache, input, hc, hp, minLen);
            ChunksFrom(chunks, cache, input, hc, hp, minLen) && hp + Total(chunks) <= |input|
    decreases |cache| - hc
  {
    if hc < |cache| && hp < |input| {
      var n := MatchLen(cache, input, hc, hp);
      if n >= minLen {
        var rest := Chunks(cache, input, hc + n, hp + n, minLen);
        ChunksAreSound(cache, input, hc + n, hp + n, minLen);
        MatchLenIsLongest(cache, input, hc, hp);
        ChunksCons(Chunk(hc, hp, n), rest, cache, input, minLen);
      } else {
        ChunksAreSound(cache, input, hc + 1, hp, minLen);
        ChunksWeaken(Chunks(cache, input, hc + 1, hp, minLen), cache, input, hc, hc + 1, hp, minLen);
      }
    }
  }

  /** No cached position from i up to k starts a run that is long enough and matches the new prompt at hp. */
  ghost predicate NoRun(cache: seq<Token>, input: seq<Token>, i: nat, k: nat, hp: nat, minLen: nat) {
    forall p: nat :: i <= p < k ==> !SameRun(cache, input, p, hp, minLen)
  }

  /** The chunks miss nothing: what the scan passes over before each of them and after the last one starts
      no run that is long enough, and no chunk could have been longer. */
  ghost predicate MissesNothing(chunks: seq<Chunk>, cache: seq<Token>, input: seq<Token>, hc: nat, hp: nat,
      minLen: nat)
  {
    if chunks == [] then NoRun(cache, input, hc, |cache|, hp, minLen)
    else var c := chunks[0];
      && NoRun(cache, input, hc, c.src, hp, minLen)
      && (forall n :: c.len < n ==> !SameRun(cache, input, c.src, hp, n))
      && MissesNothing(chunks[1..], cache, input, c.src + c.len, c.dst + c.len, minLen)
  }

  lemma MissesNothingBefore(chunks: seq<Chunk>, cache: seq<Token>, input: seq<Token>, hc: nat, hp: nat, minLen: nat)
    requires MissesNothing(chunks, cache, input, hc + 1, hp, minLen) && !SameRun(cache, input, hc, hp, minLen)
    ensures MissesNothing(chunks, cache, input, hc, hp, minLen)
  {}

  lemma MissesNothingCons(c: Chunk, rest: seq<Chunk>, cache: seq<Token>, input: seq<Token>, minLen: nat)
    requires MissesNothing(rest, cache, input, c.src + c.len, c.dst + c.len, minLen)
    requires forall n :: c.len < n ==> !SameRun(cache, input, c.src, c.dst, n)
    ensures MissesNothing([c] + rest, cache, input, c.src, c.dst, minLen)
  {
    assert ([c] + rest)[1..] == rest;
  }

  lemma ShorterRun(cache: seq<Token>, input: seq<Token>, hc: nat, hp: nat, m: nat, n: nat)
    requires SameRun(cache, input, hc, hp, n) && m <= n
    ensures SameRun(cache, input, hc, hp, m)
  {}

  lemma {:induction false} ChunksMissNothing(cache: seq<Token>, input: seq<Token>, hc: nat, hp: nat, minLen: nat)
    requires minLen > 0
    ensures MissesNothing(Chunks(cache, input, hc, hp, minLen), cache, input, hc, hp, minLen)
    decreases |cache| - hc
  {
    if hc < |cache| && hp < |input| {
      var n := MatchLen(cache, input, hc, hp);
      MatchLenIsLongest(cache, input, hc, hp);
      if n >= minLen {
        ChunksMissNothing(cache, input, hc + n, hp + n, minLen);
        MissesNothingCons(Chunk(hc, hp, n), Chunks(cache, input, hc + n, hp + n, minLen), cache, input, minLen);
      } else {
        ChunksMissNothing(cache, input, hc + 1, hp, minLen);
        MissesNothingBefore(Chunks(cache, input, hc + 1, hp, minLen), cache, input, hc, hp, minLen);
      }
    }
  }

  /** The first chunk that misses nothing starts at the first long enough run and is as long as it goes. */
  lemma FirstChunk(chunks: seq<Chunk>, cache: seq<Token>, input: seq<Token>, hc: nat, hp: nat, minLen: nat)
    requires minLen > 0 && hc < |cache| && hp < |input|
    requires ChunksFrom(chunks, cache, input, hc, hp, minLen) && MissesNothing(chunks, cache, input, hc, hp, minLen)
    ensures var n := MatchLen(cache, input, hc, hp);
            if n >= minLen then chunks != [] && chunks[0] == Chunk(hc, hp, n)
            else ChunksFrom(chunks, cache, input, hc + 1, hp, minLen)
                 && MissesNothing(chunks, cache, input, hc + 1, hp, minLen)
  {
    var n := MatchLen(cache, input, hc, hp);
    MatchLenIsLongest(cache, input, hc, hp);
    if n >= minLen {
      ShorterRun(cache, input, hc, hp, minLen, n);
    }
    if chunks != [] {
      var c := chunks[0];
      forall q | hp <= q < hp + c.len ensures cache[q + (c.src - hp)] == input[q] {
        assert cache[c.src..c.src + c.len][q - hp] == input[hp..hp + c.len][q - hp];
      }
      assert SameRun(cache, input, c.src, hp, c.len);
      ShorterRun(cache, input, c.src, hp, minLen, c.len);
    }
  }

  /** There is only one such list of chunks. */
  lemma {:induction false} ChunksUnique(chunks: seq<Chunk>, cache: seq<Token>, input: seq<Token>, hc: nat, hp: nat,
      minLen: nat)
    requires minLen > 0
    requires ChunksFrom(chunks, cache, input, hc, hp, minLen) && MissesNothing(chunks, cache, input, hc, hp, minLen)
    ensures chunks == Chunks(cache, input, hc, hp, minLen)
    decreases |cache| - hc
  {
    if hc < |cache| && hp < |input| {
      var n := MatchLen(cache, input, hc, hp);
      FirstChunk(chunks, cache, input, hc, hp, minLen);
      if n >= minLen {
        ChunksUnique(chunks[1..], cache, input, hc + n, hp + n, minLen);
        assert chunks == [chunks[0]] + chunks[1..];
      } else {
        ChunksUnique(chunks, cache, input, hc + 1, hp, minLen);
      }
    }
  }

  /** How many tokens the scan reuses from here on. */
  function Gain(cache: seq<Token>, input: seq<Token>, hc: nat, hp: nat, minLen: nat): nat
    requires minLen > 0
  {
    Total(Chunks(cache, input, hc, hp, minLen))
  }

  lemma GainStep(cache: seq<Token>, input: seq<Token>, hc: nat, hp: nat, minLen: nat)
    requires minLen > 0 && hc < |cache| && hp < |input|
    ensures var n := MatchLen(cache, input, hc, hp);
            Gain(cache, input, hc, hp, minLen) ==
            if n >= minLen then n + Gain(cache, input, hc + n, hp + n, minLen)
                else Gain(cache, input, hc + 1, hp, minLen)
  {
    var n := MatchLen(cache, input, hc, hp);
    if n >= minLen {
      var rest := Chunks(cache, input, hc + n, hp + n, minLen);
      assert ([Chunk(hc, hp, n)] + rest)[1..] == rest;
    }
  }

  /** While the cache is scanned: below hp the memory is the new prompt's, from hc on still the
      cache's; between them are leftovers. */
  ghost predicate Scanning(cells: set<Cell>, cache: seq<Token>, input: seq<Token>, hc: nat, hp: nat) {
    && (forall c :: c in cells ==> 0 <= c.pos)
    && (forall c: Cell :: c.pos < hp ==> (c in cells <==> Holds(input, c.pos, c.tok)))
    && (forall c: Cell :: c.pos >= hc ==> (c in cells <==> Holds(cache, c.pos, c.tok)))
  }

  lemma ShiftChunkCell(cells: set<Cell>, cache: seq<Token>, input: seq<Token>, hc: nat, hp: nat, n: nat,
      kept: set<Cell>, c: Cell)
    requires Scanning(cells, cache, input, hc, hp) && hp <= hc
    requires SameRun(cache, input, hc, hp, n)
    requires kept == SeqRm(cells, hp, hc)
    ensures var moved := SeqAdd(kept, hc, hc + n, hp - hc);
            && (c in moved ==> 0 <= c.pos)
            && (c.pos < hp + n ==> (c in moved <==> Holds(input, c.pos, c.tok)))
            && (c.pos >= hc + n ==> (c in moved <==> Holds(cache, c.pos, c.tok)))
  {
    var from := Cell(c.pos - (hp - hc), c.tok);
    SeqAddContains(kept, hc, hc + n, hp - hc, c, from);
    assert from in kept <==> from in cells && !(hp <= from.pos < hc);
  }

  lemma ShiftChunk(cells: set<Cell>, cache: seq<Token>, input: seq<Token>, hc: nat, hp: nat, n: nat)
    requires Scanning(cells, cache, input, hc, hp) && hp <= hc
    requires SameRun(cache, input, hc, hp, n)
    ensures Scanning(SeqAdd(SeqRm(cells, hp, hc), hc, hc + n, hp - hc), cache, input, hc + n, hp + n)
  {
    var kept := SeqRm(cells, hp, hc);
    forall c: Cell
      ensures var moved := SeqAdd(kept, hc, hc + n, hp - hc);
              && (c in moved ==> 0 <= c.pos)
              && (c.pos < hp + n ==> (c in moved <==> Holds(input, c.pos, c.tok)))
              && (c.pos >= hc + n ==> (c in moved <==> Holds(cache, c.pos, c.tok)))
    {
      ShiftChunkCell(cells, cache, input, hc, hp, n, kept, c);
    }
  }

  /** The memory side of one chunk: drop the leftovers, then shift the chunk to its new positions. */
  method ShiftCells(cells0: set<Cell>, ghost cache: seq<Token>, input: seq<Token>, hc: nat, hp: nat, n: nat)
      returns (cells: set<Cell>)
    requires Scanning(cells0, cache, input, hc, hp) && hp <= hc && SameRun(cache, input, hc, hp, n)
    ensures Scanning(cells, cache, input, hc + n, hp + n)
  {
    ShiftChunk(cells0, cache, input, hc, hp, n);
    cells := SeqRm(cells0, hp, hc);
    cells := SeqAdd(cells, hc, hc + n, hp - hc);
  }

  /** The in-place copy of one chunk: source and destination may overlap. */
  method CopyDown(tokens: array<Token>, ghost cache: seq<Token>, input: seq<Token>, hc: nat, hp: nat, n: nat)
    requires hp <= hc && tokens.Length == |cache| && SameRun(cache, input, hc, hp, n)
    requires forall j :: 0 <= j < hp ==> tokens[j] == input[j]
    requires forall j :: hc <= j < tokens.Length ==> tokens[j] == cache[j]
    modifies tokens
    ensures forall j :: 0 <= j < hp + n ==> tokens[j] == input[j]
    ensures forall j :: hc + n <= j < tokens.Length ==> tokens[j] == cache[j]
  {
    for i := 0 to n
      invariant forall j :: 0 <= j < hp + i ==> tokens[j] == input[j]
      invariant forall j :: hc + i <= j < tokens.Length ==> tokens[j] == cache[j]
    {
      ghost var q := hp + i;
      assert cache[q + (hc - hp)] == input[q];
      tokens[hp + i] := tokens[hc + i];
    }
  }

  /** Count the matching tokens; cache is what the token list held before the scan changed its front. */
  method CountMatch(tokens: array<Token>, ghost cache: seq<Token>, input: seq<Token>, hc: nat, hp: nat) returns (n: nat)
    requires hc <= tokens.Length == |cache| && hp <= |input|
    requires forall j :: hc <= j < tokens.Length ==> tokens[j] == cache[j]
    ensures n == MatchLen(cache, input, hc, hp) && SameRun(cache, input, hc, hp, n)
  {
    MatchLenIsLongest(cache, input, hc, hp);
    n := 0;
    while hc + n < tokens.Length && hp + n < |input| && tokens[hc + n] == input[hp + n]
      invariant hc + n <= tokens.Length && hp + n <= |input|
      invariant n + MatchLen(cache, input, hc + n, hp + n) == MatchLen(cache, input, hc, hp)
    {
      n := n + 1;
    }
  }

  /** Both sides of one chunk. */
  method MoveChunk(tokens: array<Token>, cells0: set<Cell>, ghost cache: seq<Token>, input: seq<Token>, hc: nat,
      hp: nat, n: nat)
      returns (cells: set<Cell>)
    requires hp <= hc && tokens.Length == |cache| && SameRun(cache, input, hc, hp, n)
    requires forall j :: 0 <= j < hp ==> tokens[j] == input[j]
    requires forall j :: hc <= j < tokens.Length ==> tokens[j] == cache[j]
    requires Scanning(cells0, cache, input, hc, hp)
    modifies tokens
    ensures forall j :: 0 <= j < hp + n ==> tokens[j] == input[j]
    ensures forall j :: hc + n <= j < tokens.Length ==> tokens[j] == cache[j]
    ensures Scanning(cells, cache, input, hc + n, hp + n)
  {
    cells := ShiftCells(cells0, cache, input, hc, hp, n);
    CopyDown(tokens, cache, input, hc, hp, n);
  }

  lemma ScanningWeaken(cells: set<Cell>, cache: seq<Token>, input: seq<Token>, hc: nat, hp: nat)
    requires Scanning(cells, cache, input, hc, hp)
    ensures Scanning(cells, cache, input, hc + 1, hp)
  {}

  /** Where the scan goes on. */
  function NextScan(cache: seq<Token>, input: seq<Token>, hc: nat, hp: nat, minLen: nat): (nat, nat)
    requires hc <= |cache| && hp <= |input|
  {
    var n := MatchLen(cache, input, hc, hp);
    if n >= minLen then (hc + n, hp + n) else (hc + 1, hp)
  }

  lemma NextScanGains(cache: seq<Token>, input: seq<Token>, hc: nat, hp: nat, minLen: nat)
    requires minLen > 0 && hp <= hc < |cache| && hp < |input|
    ensures var (hc', hp') := NextScan(cache, input, hc, hp, minLen);
            && hc < hc' <= |cache| && hp' <= hc' && hp' <= |input|
            && hp' + Gain(cache, input, hc', hp', minLen) == hp + Gain(cache, input, hc, hp, minLen)
  {
    GainStep(cache, input, hc, hp, minLen);
  }

  /** One iteration of the scan: move the chunk that matches here, if it is long enough. */
  method ScanStep(tokens: array<Token>, cells0: set<Cell>, ghost cache: seq<Token>, input: seq<Token>, hc0: nat,
      hp0: nat, minLen: nat)
      returns (cells: set<Cell>, hc: nat, hp: nat)
    requires minLen > 0 && hp0 <= hc0 < tokens.Length == |cache| && hp0 < |input|
    requires forall j :: 0 <= j < hp0 ==> tokens[j] == input[j]
    requires forall j :: hc0 <= j < tokens.Length ==> tokens[j] == cache[j]
    requires Scanning(cells0, cache, input, hc0, hp0)
    modifies tokens
    ensures (hc, hp) == NextScan(cache, input, hc0, hp0, minLen) && hp <= |input| && hp <= tokens.Length
    ensures forall j :: 0 <= j < hp ==> tokens[j] == input[j]
    ensures forall j :: hc <= j < tokens.Length ==> tokens[j] == cache[j]
    ensures Scanning(cells, cache, input, hc, hp)
  {
    var nMatch := CountMatch(tokens, cache, input, hc0, hp0);
    if nMatch >= minLen {
      cells := MoveChunk(tokens, cells0, cache, input, hc0, hp0, nMatch);
      hc, hp := hc0 + nMatch, hp0 + nMatch;
    } else {
      ScanningWeaken(cells0, cache, input, hc0, hp0);
      cells, hc, hp := cells0, hc0 + 1, hp0;
    }
  }

  /** The scan: one pass over the cache, moving tokens and cells in place. */
  method ShiftChunks(tokens: array<Token>, cells0: set<Cell>, ghost cache: seq<Token>, input: seq<Token>,
      common: nat, minLen: nat)
      returns (nPast: nat, cells: set<Cell>, ghost end: nat)
    requires minLen > 0 && common <= tokens.Length && common <= |input| && tokens[..] == cache
    requires forall j :: 0 <= j < common ==> tokens[j] == input[j]
    requires Scanning(cells0, cache, input, common, common)
    modifies tokens
    ensures nPast == common + Gain(cache, input, common, common, minLen)
    ensures nPast <= |input| && nPast <= tokens.Length
    ensures forall j :: 0 <= j < nPast ==> tokens[j] == input[j]
    ensures Scanning(cells, cache, input, end, nPast)
  {
    ghost var total := common + Gain(cache, input, common, common, minLen);
    var hc: nat, hp: nat := common, common;
    cells := cells0;
    while hc < tokens.Length && hp < |input|
      invariant hp <= hc <= tokens.Length && hp <= |input|
      invariant forall j :: 0 <= j < hp ==> tokens[j] == input[j]
      invariant forall j :: hc <= j < tokens.Length ==> tokens[j] == cache[j]
      invariant Scanning(cells, cache, input, hc, hp)
      invariant hp + Gain(cache, input, hc, hp, minLen) == total
      decreases tokens.Length - hc
    {
      NextScanGains(cache, input, hc, hp, minLen);
      cells, hc, hp := ScanStep(tokens, cells, cache, input, hc, hp, minLen);
    }
    nPast, end := hp, hc;
  }

  /** llama_memory_seq_pos_min: the smallest position in use, -1 for an empty sequence. */
  method SeqPosMin(cells: set<Cell>) returns (r: int)
    ensures cells == {} ==> r == -1
    ensures cells != {} ==> (exists c :: c in cells && c.pos == r) && forall c :: c in cells ==> r <= c.pos
  {
    r := -1;
    var todo := cells;
    while todo != {}
      invariant todo <= cells
      invariant cells == todo ==> r == -1
      invariant cells != todo ==> (exists c :: c in cells && c.pos == r) && forall c :: c in cells - todo ==> r <= c.pos
      decreases |todo|
    {
      var c :| c in todo;
      if todo == cells || c.pos < r {
        r := c.pos;
      }
      todo := todo - {c};
    }
  }

  /** The tail of the computation: with every position in memory, the only case in which the smallest
      position is not below the threshold is a fully matched one-token prompt. */
  method LeaveOneToken(nTokens: nat, cells: set<Cell>, input: seq<Token>, n: nat) returns (nPast: nat)
    requires input != [] && n <= |input| && n <= nTokens
    requires forall c :: c in cells ==> 0 <= c.pos
    requires n > 0 ==> Cell(0, input[0]) in cells
    ensures nPast == if n == |input| then n - 1 else n
  {
    nPast := n;
    var posMinThold := nPast - (if nPast < |input| then 0 else 1);
    if nPast > 0 && nPast <= nTokens {
      var posMin := SeqPosMin(cells);
      if posMin >= posMinThold {
        nPast := 0;
      }
    }
    if nPast == |input| && nPast > 0 {
      nPast := nPast - 1;
    }
  }

  lemma TruncateScan(cells: set<Cell>, cache: seq<Token>, input: seq<Token>, hc: nat, hp: nat, n: nat)
    requires Scanning(cells, cache, input, hc, hp) && n <= hp && n <= |input|
    ensures SeqRm(cells, n, -1) == Cells(input[..n])
  {
    assert forall c :: c in SeqRm(cells, n, -1) <==> Holds(input[..n], c.pos, c.tok);
  }

  /** The longest common prefix and the chunks after it. */
  lemma ReusableParts(cache: seq<Token>, input: seq<Token>, minLen: int) returns (common: nat, chunks: seq<Chunk>)
    ensures common == MatchLen(cache, input, 0, 0) && SameRun(cache, input, 0, 0, common)
    ensures forall n :: common < n ==> !SameRun(cache, input, 0, 0, n)
    ensures minLen > 0 ==> Total(chunks) == Gain(cache, input, common, common, minLen)
    ensures minLen > 0 ==> ChunksFrom(chunks, cache, input, common, common, minLen)
    ensures minLen > 0 ==> MissesNothing(chunks, cache, input, common, common, minLen)
  {
    common, chunks := MatchLen(cache, input, 0, 0), [];
    MatchLenIsLongest(cache, input, 0, 0);
    if minLen > 0 {
      chunks := Chunks(cache, input, common, common, minLen);
      ChunksAreSound(cache, input, common, common, minLen);
      ChunksMissNothing(cache, input, common, common, minLen);
    }
  }

  /** The front of the cache brought into agreement with the new prompt. */
  method KeepPrefix(tokens: array<Token>, cells0: set<Cell>, input: seq<Token>, cachePrompt: bool, nCacheReuse: int)
      returns (nPast: nat, cells: set<Cell>, ghost hc: nat)
    requires cells0 == Cells(tokens[..])
    modifies tokens
    ensures var cache := old(tokens[..]);
            var common := MatchLen(cache, input, 0, 0);
            nPast == if !cachePrompt then 0
                     else if nCacheReuse > 0 then common + Gain(cache, input, common, common, nCacheReuse) else common
    ensures nPast <= |input| && nPast <= tokens.Length
    ensures forall j :: 0 <= j < nPast ==> tokens[j] == input[j]
    ensures Scanning(cells, old(tokens[..]), input, hc, nPast)
  {
    ghost var cache := tokens[..];
    nPast, cells, hc := 0, cells0, 0;
    if cachePrompt {
      nPast := CountMatch(tokens, cache, input, 0, 0);
      assert SameRun(cache, input, 0, 0, nPast);
      hc := nPast;
      if nCacheReuse > 0 {
        nPast, cells, hc := ShiftChunks(tokens, cells, cache, input, nPast, nCacheReuse);
      }
    }
  }

  /** What the slot keeps of its cache for a new, non-empty prompt. Afterwards the token list and the
      memory both hold exactly the first nPast tokens of the new prompt, and nPast leaves at least one
      token to evaluate. */
  method ReusePrompt(tokens: array<Token>, cells0: set<Cell>, input: seq<Token>, cachePrompt: bool, nCacheReuse: int)
      returns (nPast: nat, cells: set<Cell>, ghost common: nat, ghost chunks: seq<Chunk>)
    requires input != [] && cells0 == Cells(tokens[..])
    modifies tokens
    // the longest common prefix
    ensures SameRun(old(tokens[..]), input, 0, 0, common)
    ensures forall n :: common < n ==> !SameRun(old(tokens[..]), input, 0, 0, n)
    // the chunks after it: each reappears where the one before it ends, and none is missed
    ensures nCacheReuse > 0 ==> ChunksFrom(chunks, old(tokens[..]), input, common, common, nCacheReuse)
    ensures nCacheReuse > 0 ==> MissesNothing(chunks, old(tokens[..]), input, common, common, nCacheReuse)
    // what is kept is both of them together, less one token if that is the whole prompt
    ensures var n := if !cachePrompt then 0 else if nCacheReuse > 0 then common + Total(chunks) else common;
            nPast == if n == |input| then n - 1 else n
    ensures nPast < |input| && nPast <= tokens.Length
    ensures tokens[..nPast] == input[..nPast]
    ensures cells == Cells(input[..nPast])
  {
    ghost var cache := tokens[..];
    common, chunks := ReusableParts(cache, input, nCacheReuse);
    ghost var hc;
    nPast, cells, hc := KeepPrefix(tokens, cells0, input, cachePrompt, nCacheReuse);
    ghost var hp := nPast;
    nPast := LeaveOneToken(tokens.Length, cells, input, nPast);
    TruncateScan(cells, cache, input, hc, hp, nPast);
    cells := SeqRm(cells, nPast, -1);
  }

  /** Evaluating the tokens that were not reused gives the memory of the whole new prompt. */
  lemma EvaluatingTheRestMirrors(kind: SeqRmKind, input: seq<Token>, nPast: nat)
    requires nPast <= |input|
    ensures AbsorbAll(Mirror(kind, input[..nPast], input[..nPast]), RowsAt(nPast, input[nPast..]))
            == Mirror(kind, input, input)
  {
    AbsorbExtendsMirror(kind, input[..nPast], input[..nPast], input[nPast..]);
    assert input[..nPast] + input[nPast..] == input;
  }
}
