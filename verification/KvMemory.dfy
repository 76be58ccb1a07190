/**
 The per-sequence memory of the target context, as the server uses it through
 llama_decode, seq_rm, seq_add and the partial state save/load.

 A sequence owns a set of attention cells (a decode only ever adds cells, so a stale cell is
 not overwritten: its position then holds two) and, on recurrent or hybrid models, one
 running state, identified here with the list of tokens that were folded into it and the
 position after the last of them. A context shift moves cells and that position; what was
 folded stays folded.
 */
module KvMemory {

  type Token = int

  datatype Cell = Cell(pos: int, tok: Token)

  /** What common_context_can_seq_rm reports about removing the tail of a sequence:
      any tail, nothing but whole sequences, or at most nRs trailing tokens. */
  datatype SeqRmKind = Part | Full | Rs(nRs: nat)

  datatype State = Stateless | Folded(toks: seq<Token>, pos: int)

  datatype Memory = Memory(cells: set<Cell>, state: State)

  function Init(s: seq<Token>): seq<Token> requires s != [] { s[..|s| - 1] }

  function Last(s: seq<Token>): Token requires s != [] { s[|s| - 1] }

  lemma Assoc(a: seq<Token>, b: seq<Token>, c: seq<Token>)
    ensures a + b + c == a + (b + c)
  {}

  lemma InitLast(a: seq<Token>, b: seq<Token>)
    requires b != []
    ensures a + Init(b) + [Last(b)] == a + b
  {}

  /** Position p of s holds token t. */
  predicate Holds(s: seq<Token>, p: int, t: Token) {
    0 <= p < |s| && s[p] == t
  }

  /** The cells of a sequence holding exactly the tokens s at positions 0, 1, ... */
  function Cells(s: seq<Token>): (r: set<Cell>)
    ensures forall c :: c in r <==> Holds(s, c.pos, c.tok)
  {
    set i | 0 <= i < |s| :: Cell(i, s[i])
  }

  function StateOf(kind: SeqRmKind, folded: seq<Token>, pos: int): State {
    if kind.Part? then Stateless else Folded(folded, pos)
  }

  /** The memory of a sequence that holds exactly the tokens s and has folded the given ones. */
  function Mirror(kind: SeqRmKind, s: seq<Token>, folded: seq<Token>): Memory {
    Memory(Cells(s), StateOf(kind, folded, |s|))
  }

  /** llama_memory_seq_rm on the cells: positions in [p0, p1), a negative p1 meaning no upper end. */
  function SeqRm(cells: set<Cell>, p0: int, p1: int): set<Cell> {
    set c | c in cells && !(p0 <= c.pos && (p1 < 0 || c.pos < p1))
  }

  /** llama_memory_seq_add: shift the cells with a position in [p0, p1) by delta. */
  function SeqAdd(cells: set<Cell>, p0: int, p1: int, delta: int): set<Cell> {
    (set c | c in cells && !(p0 <= c.pos < p1)) +
    (set c | c in cells && p0 <= c.pos < p1 :: Cell(c.pos + delta, c.tok))
  }

  lemma SeqAddContains(cells: set<Cell>, p0: int, p1: int, delta: int, c: Cell, from: Cell)
    requires from == Cell(c.pos - delta, c.tok)
    ensures c in SeqAdd(cells, p0, p1, delta) <==>
              (c in cells && !(p0 <= c.pos < p1)) || (from in cells && p0 <= from.pos < p1)
  {
    assert c == Cell(from.pos + delta, from.tok);
  }

  /** seq_rm of a middle part [p0, p1): the running state is left alone; a memory that has one refuses
      to remove its last position in this way. */
  function RemoveMiddle(m: Memory, p0: int, p1: int): Memory
    requires m.state.Folded? ==> !(p0 < m.state.pos <= p1)
  {
    m.(cells := SeqRm(m.cells, p0, p1))
  }

  /** seq_add on the whole memory: the running state's position moves with the last cell, nothing else. */
  function Move(m: Memory, p0: int, p1: int, delta: int): Memory {
    Memory(SeqAdd(m.cells, p0, p1, delta),
           if m.state.Folded? && p0 < m.state.pos <= p1 then m.state.(pos := m.state.pos + delta) else m.state)
  }

  /** The number of trailing tokens by which the running state may be taken back. */
  predicate CanRollback(kind: SeqRmKind, n: int) {
    match kind
    case Part => true
    case Full => n <= 0
    case Rs(nRs) => n <= nRs
  }

  /** How many positions of the running state lie at p0 or behind. */
  function Rollback(m: Memory, p0: int): int {
    if m.state.Folded? then m.state.pos - p0 else 0
  }

  /** seq_rm(p0, -1) on the whole memory; callable only if the running state can go back that far. */
  function TruncateFrom(kind: SeqRmKind, m: Memory, p0: nat): Memory
    requires CanRollback(kind, Rollback(m, p0)) && (m.state.Folded? ==> Rollback(m, p0) <= |m.state.toks|)
  {
    var n := Rollback(m, p0);
    Memory(SeqRm(m.cells, p0, -1), if n <= 0 then m.state else Folded(m.state.toks[..|m.state.toks| - n], p0))
  }

  /** llama_memory_seq_pos_max: the largest position in use, -1 for an empty sequence. */
  method SeqPosMax(cells: set<Cell>) returns (r: int)
    ensures r == -1 || exists c :: c in cells && c.pos == r
    ensures forall c :: c in cells ==> c.pos <= r
  {
    r := -1;
    var todo := cells;
    while todo != {}
      invariant todo <= cells
      invariant r == -1 || exists c :: c in cells && c.pos == r
      invariant forall c :: c in cells - todo ==> c.pos <= r
      decreases |todo|
    {
      var c :| c in todo;
      todo := todo - {c};
      if r < c.pos {
        r := c.pos;
      }
    }
  }

  /** What decoding one row does to the memory. */
  function Absorb(m: Memory, row: Cell): Memory {
    Memory(m.cells + {row}, if m.state.Folded? then Folded(m.state.toks + [row.tok], row.pos + 1) else m.state)
  }

  function AbsorbAll(m: Memory, rows: seq<Cell>): Memory {
    if rows == [] then m else Absorb(AbsorbAll(m, rows[..|rows| - 1]), rows[|rows| - 1])
  }

  /** What the causal mask lets the row at position p see. */
  function Visible(m: Memory, p: int): Memory {
    m.(cells := set c | c in m.cells && c.pos <= p)
  }

  /** The rows of a batch that appends toks at positions n, n+1, ... */
  function RowsAt(n: nat, toks: seq<Token>): seq<Cell> {
    seq(|toks|, i requires 0 <= i < |toks| => Cell(n + i, toks[i]))
  }

  /** llama_decode: the new memory, and the views from which the logits of the rows are computed. */
  method Decode(m: Memory, rows: seq<Cell>) returns (m': Memory, views: seq<Memory>)
    ensures m' == AbsorbAll(m, rows)
    ensures |views| == |rows|
    ensures forall i :: 0 <= i < |rows| ==> views[i] == Visible(AbsorbAll(m, rows[..i + 1]), rows[i].pos)
  {
    m', views := m, [];
    for i := 0 to |rows|
      invariant m' == AbsorbAll(m, rows[..i])
      invariant |views| == i
      invariant forall j :: 0 <= j < i ==> views[j] == Visible(AbsorbAll(m, rows[..j + 1]), rows[j].pos)
    {
      assert rows[..i + 1][..i] == rows[..i];
      m' := Absorb(m', rows[i]);
      views := views + [Visible(m', rows[i].pos)];
    }
    assert rows[..|rows|] == rows;
  }

  lemma AbsorbOne(kind: SeqRmKind, s: seq<Token>, folded: seq<Token>, t: Token)
    ensures Absorb(Mirror(kind, s, folded), Cell(|s|, t)) == Mirror(kind, s + [t], folded + [t])
  {
    assert Cells(s + [t]) == Cells(s) + {Cell(|s|, t)};
  }

  lemma RowsPrefix(n: nat, toks: seq<Token>, k: nat)
    requires k <= |toks|
    ensures RowsAt(n, toks)[..k] == RowsAt(n, toks[..k])
  {}

  /** Appending a batch to a mirrored sequence leaves it mirrored. */
  lemma {:induction false} AbsorbExtendsMirror(kind: SeqRmKind, s: seq<Token>, folded: seq<Token>, toks: seq<Token>)
    ensures AbsorbAll(Mirror(kind, s, folded), RowsAt(|s|, toks)) == Mirror(kind, s + toks, folded + toks)
  {
    if toks == [] {
      assert s + toks == s && folded + toks == folded;
    } else {
      AbsorbExtendsMirror(kind, s, folded, Init(toks));
      RowsPrefix(|s|, toks, |toks| - 1);
      InitLast(s, toks);
      InitLast(folded, toks);
      AbsorbOne(kind, s + Init(toks), folded + Init(toks), Last(toks));
    }
  }

  /** Each row of such a batch sees exactly the sequence up to and including itself. */
  lemma RowSeesItsPrefix(kind: SeqRmKind, s: seq<Token>, folded: seq<Token>, toks: seq<Token>, i: nat)
    requires i < |toks|
    ensures var rows := RowsAt(|s|, toks);
            Visible(AbsorbAll(Mirror(kind, s, folded), rows[..i + 1]), rows[i].pos)
              == Mirror(kind, s + toks[..i + 1], folded + toks[..i + 1])
  {
    RowsPrefix(|s|, toks, i + 1);
    AbsorbExtendsMirror(kind, s, folded, toks[..i + 1]);
  }

  /** is_inside_view of post_decode. */
  predicate InsideView(off: nat, n: nat, i: nat) {
    off <= i < off + n
  }

  /** How many of the rows first, first+1, ... of a slot have been decoded when the batch is decoded up to end. */
  function RowsDecoded(first: nat, n: nat, end: nat): nat {
    if end <= first then 0 else if end < first + n then end - first else n
  }

  /** The prompt is extended before its rows are decoded. post_decode throws when an index of a verification
      batch is not inside the current view, and every slot is then released with its prompt as it stands. A slot
      whose rows start at batch index first is left with memory and prompt in agreement if and only if the view
      reaches past its last row; if its rows do not start before the view, that is if and only if none of its own
      indices is one that post_decode throws for. */
  lemma AbandonedBatchMirrorsIff(kind: SeqRmKind, s: seq<Token>, folded: seq<Token>, toks: seq<Token>,
                                 first: nat, off: nat, n: nat)
    requires toks != []
    ensures var rows := RowsAt(|s|, toks)[..RowsDecoded(first, |toks|, off + n)];
            var mirrors := AbsorbAll(Mirror(kind, s, folded), rows) == Mirror(kind, s + toks, folded + toks);
            && (mirrors <==> first + |toks| - 1 < off + n)
            && (off <= first ==>
                  (mirrors <==> forall i: nat :: first <= i < first + |toks| ==> InsideView(off, n, i)))
  {
    var k := RowsDecoded(first, |toks|, off + n);
    RowsPrefix(|s|, toks, k);
    AbsorbExtendsMirror(kind, s, folded, toks[..k]);
    if k < |toks| {
      var c := Cell(|s| + k, toks[k]);
      assert c in Cells(s + toks) && c !in Cells(s + toks[..k]);
      assert !InsideView(off, n, first + |toks| - 1);
    } else {
      assert toks[..k] == toks;
    }
  }

  /** Cutting a mirrored sequence back to a prefix leaves exactly the prefix, unfolding as many tokens. */
  lemma TruncateKeepsPrefix(kind: SeqRmKind, s: seq<Token>, folded: seq<Token>, n: nat)
    requires n <= |s| && |s| - n <= |folded| && CanRollback(kind, Rollback(Mirror(kind, s, folded), n))
    ensures TruncateFrom(kind, Mirror(kind, s, folded), n) == Mirror(kind, s[..n], folded[..|folded| - (|s| - n)])
  {
    assert SeqRm(Cells(s), n, -1) == Cells(s[..n]);
    assert n == |s| ==> folded[..|folded| - (|s| - n)] == folded;
  }

  lemma MirrorPosMax(s: seq<Token>, r: int)
    requires r == -1 || exists c :: c in Cells(s) && c.pos == r
    requires forall c :: c in Cells(s) ==> c.pos <= r
    ensures r == |s| - 1
  {
    if s != [] {
      assert Cell(|s| - 1, s[|s| - 1]) in Cells(s);
    }
  }

  lemma ShiftedCell(s: seq<Token>, k: int, d: int, kept: set<Cell>, c: Cell)
    requires 0 <= k && 0 <= d && k + d <= |s|
    requires forall x :: x in kept <==> Holds(s, x.pos, x.tok) && !(k <= x.pos < k + d)
    ensures c in SeqAdd(kept, k + d, |s|, -d) <==> Holds(s[..k] + s[k + d..], c.pos, c.tok)
  {
    SeqAddContains(kept, k + d, |s|, -d, c, Cell(c.pos + d, c.tok));
  }

  /** Removing positions k .. k+d-1 and shifting the rest down matches the same edit of the tokens. */
  lemma ShiftMirror(s: seq<Token>, k: int, d: int)
    requires 0 <= k && 0 <= d && k + d <= |s|
    ensures SeqAdd(SeqRm(Cells(s), k, k + d), k + d, |s|, -d) == Cells(s[..k] + s[k + d..])
  {
    var kept := SeqRm(Cells(s), k, k + d);
    forall c: Cell ensures c in SeqAdd(kept, k + d, |s|, -d) <==> Holds(s[..k] + s[k + d..], c.pos, c.tok) {
      ShiftedCell(s, k, d, kept, c);
    }
  }

  /** A context shift of n tokens that drops d of them from k on. */
  function Shifted(m: Memory, k: int, d: int, n: int): Memory
    requires m.state.Folded? ==> !(k < m.state.pos <= k + d)
  {
    Move(RemoveMiddle(m, k, k + d), k + d, n, -d)
  }

  lemma MiddleIsRemovable(kind: SeqRmKind, s: seq<Token>, folded: seq<Token>, k: int, d: int)
    requires 0 <= d && (d == 0 || k + d < |s|)
    ensures var m := Mirror(kind, s, folded); m.state.Folded? ==> !(k < m.state.pos <= k + d)
  {}

  /** The same on the whole memory, as long as the last position is not removed: what was folded stays. */
  lemma ShiftMemory(kind: SeqRmKind, s: seq<Token>, folded: seq<Token>, k: int, d: int)
    requires 0 <= k && 0 <= d && k + d <= |s| && (d == 0 || k + d < |s|)
    ensures Shifted(Mirror(kind, s, folded), k, d, |s|) == Mirror(kind, s[..k] + s[k + d..], folded)
  {
    ShiftMirror(s, k, d);
  }
}
