/**
 One generating slot of the server with speculative decoding: context shift, drafting,
 verification batch, and either commit of the accepted tokens or restore of the
 checkpoint and replay of the truncated draft.

 The drafter, the reasons for which a token ends the request (end-of-generation token,
 stop word, time limit) and the retained counters are inputs; the target and its sampler
 are a deterministic function of the visible memory and of the tokens accepted so far.
 */
module SpeculativeSlot {
  import opened Helpers
  import opened KvMemory
  import opened SerialDecoding

  /** common_prompt_checkpoint. The position fields are refreshed before every draft, the
      saved running state only when the draft may need more rollback than the memory offers. */
  datatype Checkpoint = Checkpoint(nTokens: nat, posMax: int, dataTgt: State)

  predicate UseCheckpoint(kind: SeqRmKind, n: nat) {
    match kind
    case Part => false
    case Full => true
    case Rs(nRs) => n > nRs
  }

  /** get_n_draft_max: leave room in the context and in the generation budget. */
  function DraftMax(p: Params, nTokens: nat, nGen: nat): int {
    var fits := p.nCtx - nTokens - 2;
    if p.nPredict != -1 && p.nPredict - nGen > 0 then Min(fits, p.nPredict - nGen - 1) else fits
  }

  /** What ends a request after its g-th token, while the prompt holds n tokens: a reason of its own, a full
      context that cannot shift, or an exhausted budget. */
  predicate Ends(p: Params, halt: bool, n: nat, g: nat) {
    halt || (!p.ctxShift && NeedsShift(p, n)) || (p.nPredict != -1 && g >= p.nPredict)
  }

  /** None of the m tokens after the g-th, but perhaps the last, ends the request. */
  ghost predicate RunsThrough(p: Params, halts: nat -> bool, nPrompt: nat, g: nat, m: nat) {
    forall t: nat :: g < t < g + m ==> !Ends(p, halts(t), nPrompt, t)
  }

  /** Of m tokens to emit after the g-th, the first n are emitted: all up to the first that ends the request. */
  ghost predicate EmitsUpTo(p: Params, halts: nat -> bool, nPrompt: nat, g: nat, n: nat, m: nat) {
    1 <= n <= m && RunsThrough(p, halts, nPrompt, g, n) && (n < m ==> Ends(p, halts(g + n), nPrompt, g + n))
  }

  /** A commit puts all of ids but the last into the context before any of them is emitted. Afterwards the context
      holds the input and all emitted tokens but the last if and only if no token before the last of ids ended the
      request; otherwise it holds more. */
  lemma CommittedExactIff(p: Params, halts: nat -> bool, nPrompt: nat, input: seq<Token>, was: seq<Token>,
      ids: seq<Token>, n: nat)
    requires EmitsUpTo(p, halts, nPrompt, |was|, n, |ids|)
    ensures input + Init(was + ids[..n]) == input + was + Init(ids) <==> RunsThrough(p, halts, nPrompt, |was|, |ids|)
  {
    CommittedHolds(input, was, ids, n);
    if n < |ids| {
      assert Ends(p, halts(|was| + n), nPrompt, |was| + n);
      assert |input + Init(was + ids[..n])| < |input + was + Init(ids)|;
    }
  }

  lemma CommittedHolds(input: seq<Token>, was: seq<Token>, ids: seq<Token>, n: nat)
    requires 1 <= n <= |ids|
    ensures input + Init(was + ids[..n]) <= input + was + Init(ids)
    ensures n == |ids| ==> input + Init(was + ids[..n]) == input + was + Init(ids)
    ensures Last(was + ids[..n]) == ids[n - 1]
  {
    assert Init(was + ids[..n]) == was + ids[..n - 1];
    Assoc(input, was, ids[..n - 1]);
    assert ids[..n - 1] <= Init(ids);
    assert n == |ids| ==> ids[..n - 1] == Init(ids);
  }

  /** A checkpoint is needed exactly if the memory cannot be rolled back. */
  lemma UseCheckpointIff(kind: SeqRmKind, n: nat)
    requires n > 0
    ensures UseCheckpoint(kind, n) <==> !CanRollback(kind, n)
  {}

  /** The largest draft: together with the sampled token and one more it still fits the context, and all of it but no
      more than it can be emitted within the budget, one token behind it included. */
  lemma DraftMaxIsLargest(p: Params, nTokens: nat, nGen: nat, n: int)
    ensures n <= DraftMax(p, nTokens, nGen) <==>
              && nTokens + 1 + n + 1 <= p.nCtx
              && (p.nPredict != -1 && nGen < p.nPredict ==> nGen + n + 1 <= p.nPredict)
  {}

  /** The token list loses positions k .. k+d-1 by copying its tail down in place. */
  method DropMiddle(s: seq<Token>, k: nat, d: nat) returns (r: seq<Token>)
    requires k + d <= |s|
    ensures r == s[..k] + s[k + d..]
  {
    ghost var target := s[..k] + s[k + d..];
    var tokens := new Token[|s|](i requires 0 <= i < |s| => s[i]);
    for i := k + d to |s|
      invariant forall j :: 0 <= j < i - d ==> tokens[j] == target[j]
      invariant forall j :: i <= j < |s| ==> tokens[j] == s[j]
    {
      assert target[i - d] == s[i];
      tokens[i - d] := tokens[i];
    }
    r := tokens[..|s| - d];
  }

  /** The memory side of a context shift. */
  method ShiftMemoryOf(p: Params, prompt: seq<Token>, mem: Memory, ghost folded: seq<Token>) returns (shifted: Memory)
    requires ValidParams(p) && p.ctxShift && NeedsShift(p, |prompt|) && mem == Mirror(p.kind, prompt, folded)
    ensures shifted == Mirror(p.kind, Room(p, prompt), folded)
  {
    ShiftIsInside(p, |prompt|);
    var k, d := KeepCount(p), DiscardCount(p, |prompt|);
    MiddleIsRemovable(p.kind, prompt, folded, k, d);
    ShiftMemory(p.kind, prompt, folded, k, d);
    shifted := Shifted(mem, k, d, |prompt|);
  }

  /** The token side. */
  method ShiftTokens(p: Params, prompt: seq<Token>) returns (shifted: seq<Token>)
    requires ValidParams(p) && p.ctxShift && NeedsShift(p, |prompt|)
    ensures shifted == Room(p, prompt)
  {
    ShiftIsInside(p, |prompt|);
    shifted := DropMiddle(prompt, KeepCount(p), DiscardCount(p, |prompt|));
  }

  /** Shifting first does not change what serial decoding does next. */
  lemma ShiftInvisible(next: Target, p: Params, s: Serial, t: Serial, k: nat)
    requires ValidParams(p) && Room(p, s.prompt) == Room(p, t.prompt)
    requires s.sampled == t.sampled && s.accepted == t.accepted && k > 0
    ensures SerialRun(next, p, s, k) == SerialRun(next, p, t, k)
  {
    assert SerialStep(next, p, s) == SerialStep(next, p, t);
  }

  /** ts are the tokens serial decoding emits first. */
  ghost predicate SerialPrefix(next: Target, p: Params, input: seq<Token>, ts: seq<Token>)
    requires ValidParams(p)
  {
    forall i :: 0 <= i < |ts| ==> ts[i] == SerialRun(next, p, Start(next, p, input), i).sampled
  }

  lemma FirstIsSerial(next: Target, p: Params, input: seq<Token>)
    requires ValidParams(p)
    ensures var start := Start(next, p, input);
            && SerialRun(next, p, start, 0) == start
            && SerialPrefix(next, p, input, [start.sampled]) && input + [] == input
  {}

  /** base is the serial state after the tokens ts, possibly with its context already shifted. */
  ghost predicate ShiftedStateAfter(next: Target, p: Params, input: seq<Token>, ts: seq<Token>, base: Serial)
    requires ValidParams(p)
  {
    ts != [] &&
    var ref := SerialRun(next, p, Start(next, p, input), |ts| - 1);
    Room(p, ref.prompt) == Room(p, base.prompt) && ref.sampled == base.sampled && ref.accepted == base.accepted
  }

  lemma RunFromBase(next: Target, p: Params, input: seq<Token>, ts: seq<Token>, base: Serial, k: nat)
    requires ValidParams(p) && ShiftedStateAfter(next, p, input, ts, base) && k > 0
    ensures SerialRun(next, p, Start(next, p, input), |ts| - 1 + k) == SerialRun(next, p, base, k)
  {
    RunCompose(next, p, Start(next, p, input), |ts| - 1, k);
    ShiftInvisible(next, p, SerialRun(next, p, Start(next, p, input), |ts| - 1), base, k);
  }

  /** Appending tokens that continue the current serial state extends the serial prefix. */
  lemma ExtendPrefix(next: Target, p: Params, input: seq<Token>, ts: seq<Token>, base: Serial, ids: seq<Token>, n: nat)
    requires ValidParams(p) && n <= |ids| && SerialPrefix(next, p, input, ts)
    requires ShiftedStateAfter(next, p, input, ts, base) && Continues(next, p, base, ids)
    ensures SerialPrefix(next, p, input, ts + ids[..n])
  {
    var start, all := Start(next, p, input), ts + ids[..n];
    forall i | 0 <= i < |all| ensures all[i] == SerialRun(next, p, start, i).sampled {
      if |ts| <= i {
        RunFromBase(next, p, input, ts, base, i - |ts| + 1);
        assert all[i] == ids[i - |ts|];
      }
    }
  }

  lemma ExtendPrefixes(next: Target, p: Params, input: seq<Token>, ts: seq<Token>, base: Serial, ids: seq<Token>,
      n: nat)
    requires ValidParams(p) && n <= |ids| && SerialPrefix(next, p, input, ts)
    requires ShiftedStateAfter(next, p, input, ts, base) && Continues(next, p, base, ids)
    ensures SerialPrefix(next, p, input, ts + ids[..n]) && SerialPrefix(next, p, input, ts + ids)
  {
    ExtendPrefix(next, p, input, ts, base, ids, n);
    ExtendPrefix(next, p, input, ts, base, ids, |ids|);
    assert ids[..|ids|] == ids;
  }

  class Slot {
    const next: Target
    const p: Params
    ghost const input: seq<Token>

    var prompt: seq<Token>
    var sampled: Token
    var accepted: seq<Token>      // the sampler state
    var mem: Memory
    var generating: bool
    var truncated: bool
    var draft: seq<Token>
    var isReplay: bool
    var ckpt: Checkpoint
    var nGen: nat
    var nDraftTokens: nat
    var nDraftAccepted: nat
    ghost var emitted: seq<Token> // every token handed to process_token
    ghost var folded: seq<Token>  // every token decoded and kept, shifted out since or not

    /** The serial state after as many tokens as this slot has emitted. */
    ghost function Reference(): Serial
      requires ValidParams(p) && emitted != []
      reads `emitted
    {
      SerialRun(next, p, Start(next, p, input), |emitted| - 1)
    }

    ghost predicate Bounded()
      reads this
    {
      && nGen == |emitted|
      && (p.nPredict != -1 ==> nGen <= Max(1, p.nPredict))
      && ((p.ctxShift ==> p.nDiscard >= 0) ==> |prompt| < p.nCtx)
    }

    /** Memory holds exactly the prompt, which without shifting is everything decoded and kept. */
    ghost predicate Mirrored()
      reads `prompt, `mem, `folded
    {
      mem == Mirror(p.kind, prompt, folded) && (!p.ctxShift ==> prompt == folded)
    }

    /** The emitted tokens are a prefix of the serial trajectory, and all but the last are in the context. */
    ghost predicate Emitted()
      requires ValidParams(p)
      reads `emitted, `folded, `sampled
    {
      && emitted != [] && SerialPrefix(next, p, input, emitted) && sampled == Last(emitted)
      && input + Init(emitted) <= folded
    }

    /** The state of a slot that will decode again. */
    ghost predicate InStep()
      requires ValidParams(p) && emitted != []
      reads this
    {
      && sampled == Reference().sampled
      && accepted == Reference().accepted == input + emitted
      && folded == input + Init(emitted)
      && Room(p, prompt) == Room(p, Reference().prompt)
      && (!p.ctxShift ==> prompt + [sampled] == input + emitted && !NeedsShift(p, |prompt|))
      && (p.nPredict != -1 ==> nGen < p.nPredict)
    }

    /** A truncated draft that waits to be replayed: it is what serial decoding produces next,
        it fits, and its tokens but the last were counted when they were drafted. */
    ghost predicate Pending()
      requires ValidParams(p)
      reads this
    {
      && draft != []
      && Continues(next, p, Serial(prompt, sampled, accepted), draft)
      && |prompt| + |draft| + 2 <= p.nCtx
      && (p.nPredict != -1 ==> nGen + |draft| + 1 <= p.nPredict)
      && nDraftAccepted + |draft| - 1 <= nDraftTokens
    }

    ghost predicate Valid()
      reads this
    {
      && ValidParams(p)
      && Mirrored() && Emitted()
      && nDraftAccepted <= nDraftTokens
      && Bounded()
      && (generating ==> InStep() && (isReplay <==> draft != []) && (isReplay ==> Pending()))
    }

    /** The prompt has been evaluated, nothing sampled yet (SLOT_STATE_DONE_PROMPT). */
    ghost predicate Evaluated()
      reads this
    {
      && ValidParams(p) && 0 < |prompt| < p.nCtx && input == prompt == folded == accepted && Mirrored()
      && generating && emitted == [] && nGen == 0 && draft == [] && !isReplay && nDraftTokens == 0
          && nDraftAccepted == 0
    }

    constructor (next: Target, p: Params, prompt: seq<Token>)
      requires ValidParams(p) && 0 < |prompt| < p.nCtx
      ensures Evaluated() && this.next == next && this.p == p && input == prompt
    {
      this.next, this.p, this.input, this.prompt, this.folded := next, p, prompt, prompt, prompt;
      mem := Mirror(p.kind, prompt, prompt);
      sampled, accepted := 0, prompt;
      generating, truncated, draft, isReplay := true, false, [], false;
      ckpt := Checkpoint(0, -1, Stateless);
      nGen, nDraftTokens, nDraftAccepted := 0, 0, 0;
      emitted := [];
    }

    /** The first token, sampled from the last row of the prompt. */
    method SampleFirst(halts: nat -> bool)
      requires Evaluated()
      modifies this`sampled, this`accepted, this`emitted, this`nGen, this`generating, this`draft, this`isReplay
      ensures Valid() && emitted == [Start(next, p, input).sampled] && folded == input
      ensures draft == [] && !isReplay && (generating <==> !Ends(p, halts(1), |prompt|, 1))
    {
      ghost var first := Start(next, p, input).sampled;
      FirstIsSerial(next, p, input);
      SampleOne(mem, halts);
      assert emitted == [first] && Init(emitted) == [];
      if generating {
        StartsInStep();
      }
    }

    lemma StartsInStep()
      requires ValidParams(p) && emitted == [sampled] && Serial(prompt, sampled, accepted) == Start(next, p, input)
      requires folded == input && nGen == 1 && !Ends(p, false, |prompt|, nGen)
      ensures InStep()
    {
      FirstIsSerial(next, p, input);
      assert Init(emitted) == [] && Reference() == Start(next, p, input);
    }

    /** The tail of process_token: remember the token, then check the limits. */
    method ProcessToken(tok: Token, halt: bool) returns (more: bool)
      requires nGen > 0
      modifies this`sampled, this`emitted
      ensures sampled == tok && emitted == old(emitted) + [tok]
      ensures more <==> !Ends(p, halt, |prompt|, nGen)
    {
      sampled := tok;
      emitted := emitted + [tok];
      more := !halt;
      if !p.ctxShift && |prompt| + 1 >= p.nCtx {
        more := false;
      }
      if nGen > 0 && more && !(p.nPredict == -1 || p.nPredict - nGen > 0) {
        more := false;
      }
    }

    method Release()
      modifies this`generating, this`draft, this`isReplay
      ensures !generating && draft == [] && !isReplay
    {
      generating, draft, isReplay := false, [], false;
    }

    /** pre_decode: make room by dropping the middle of the context, in memory and in the token list. */
    method ContextShift()
      requires ValidParams(p) && Mirrored() && (isReplay ==> !NeedsShift(p, |prompt|))
      modifies this`prompt, this`mem, this`truncated
      ensures prompt == Room(p, old(prompt)) && Mirrored()
      ensures if p.ctxShift && |old(prompt)| + 1 >= p.nCtx then ShiftsTo(p, old(prompt), prompt)
              else prompt == old(prompt)
      ensures isReplay ==> prompt == old(prompt)
    {
      if |prompt| + 1 >= p.nCtx && p.ctxShift {
        RoomShifts(p, prompt);
        mem := ShiftMemoryOf(p, prompt, mem, folded);
        prompt := ShiftTokens(p, prompt);
        truncated := true;
      }
    }

    /** pre_decode: reuse a pending draft, or take a new one from the drafter and a checkpoint if
        verifying it may need more rollback than the memory supports. */
    method PrepareDraft(drafted: seq<Token>)
      requires Mirrored()
      requires draft == [] ==> |drafted| <= Max(0, DraftMax(p, |prompt|, nGen))
      modifies this`draft, this`ckpt, this`nDraftTokens
      ensures old(draft) != [] ==> draft == old(draft) && nDraftTokens == old(nDraftTokens)
      ensures old(draft) == [] ==> draft == drafted && nDraftTokens == old(nDraftTokens) + |drafted|
      ensures old(draft) == [] && draft != [] ==> CheckpointOf(prompt, folded, |draft|)
    {
      if DraftMax(p, |prompt|, nGen) > 0 && draft == [] {
        var posMax := SeqPosMax(mem.cells);
        MirrorPosMax(prompt, posMax);
        ckpt := ckpt.(nTokens := |prompt|, posMax := posMax);
        draft := drafted;
        nDraftTokens := nDraftTokens + |draft|;
        if draft != [] && UseCheckpoint(p.kind, |draft|) {
          ckpt := ckpt.(dataTgt := mem.state);
        }
      }
    }

    /** handle_last_sampled_token: the rows of the batch, and the tokens they append to the prompt. */
    method HandleLastSampledToken() returns (rows: seq<Cell>)
      modifies this`prompt
      ensures rows == RowsAt(|old(prompt)|, [sampled] + draft)
      ensures prompt == old(prompt) + [sampled] + draft
    {
      var pos := |prompt|;
      rows := [Cell(pos, sampled)];
      for i := 0 to |draft|
        invariant |rows| == i + 1
        invariant forall j :: 0 <= j <= i ==> rows[j] == Cell(pos + j, ([sampled] + draft)[j])
      {
        rows := rows + [Cell(pos + 1 + i, draft[i])];
      }
      prompt := prompt + [sampled];
      prompt := prompt + draft;
    }

    /** common_sampler_sample_and_accept_n on the slot's sampler. */
    method SampleAndAccept(views: seq<Memory>) returns (ids: seq<Token>)
      requires |views| == |draft| + 1
      modifies this`accepted
      ensures ids == AcceptFrom(next, views, draft, old(accepted), 0)
      ensures accepted == old(accepted) + ids
    {
      ids := [];
      var i := 0;
      while i < |draft|
        invariant 0 <= i == |ids| <= |draft| && accepted == old(accepted) + ids
        invariant ids + AcceptFrom(next, views, draft, accepted, i) == AcceptFrom(next, views, draft, old(accepted), 0)
      {
        var id := next(views[i], accepted);
        AcceptStep(next, views, draft, ids, accepted, i);
        accepted := accepted + [id];
        ids := ids + [id];
        if draft[i] != id {
          return;
        }
        i := i + 1;
      }
      var id := next(views[i], accepted);
      accepted := accepted + [id];
      ids := ids + [id];
    }

    /** The emission loop of post_decode: stops and releases the slot at the first token that ends the request. */
    method EmitAll(ids: seq<Token>, halts: nat -> bool) returns (ghost n: nat)
      requires ids != [] && generating && nGen == |emitted|
      modifies this`sampled, this`emitted, this`nGen, this`generating, this`draft, this`isReplay
      ensures EmitsUpTo(p, halts, |prompt|, old(nGen), n, |ids|)
      ensures emitted == old(emitted) + ids[..n] && sampled == ids[n - 1] && nGen == |emitted|
      ensures generating <==> !Ends(p, halts(nGen), |prompt|, nGen)
      ensures if generating then n == |ids| && draft == old(draft) && isReplay == old(isReplay)
              else draft == [] && !isReplay
    {
      n := 0;
      for i := 0 to |ids|
        invariant n == i && generating && emitted == old(emitted) + ids[..i] && nGen == |emitted| == old(nGen) + i
        invariant draft == old(draft) && isReplay == old(isReplay)
        invariant i > 0 ==> sampled == ids[i - 1]
        invariant RunsThrough(p, halts, |prompt|, old(nGen), i + 1)
      {
        nGen := nGen + 1;
        var more := ProcessToken(ids[i], halts(nGen));
        assert ids[..i + 1] == ids[..i] + [ids[i]];
        n := i + 1;
        if !more {
          Release();
          return;
        }
      }
    }

    /** The checkpoint describes exactly the sequence base, as far as verifying an n-token draft can need it. */
    ghost predicate CheckpointOf(base: seq<Token>, folded: seq<Token>, n: nat)
      reads `ckpt
    {
      && ckpt.nTokens == |base| && ckpt.posMax == |base| - 1
      && (UseCheckpoint(p.kind, n) ==> ckpt.dataTgt == StateOf(p.kind, folded, |base|))
    }

    /** Partial acceptance that the memory cannot roll back: restore the checkpoint and keep the
        accepted tokens as the draft of a replay. */
    method Restore(ghost base: Serial, ids: seq<Token>, saved: seq<Token>)
      requires Mirrored() && Sampled(base) && prompt == base.prompt + [sampled] + draft
               && folded == base.accepted + draft
      requires !p.ctxShift ==> base.prompt == Init(base.accepted)
      requires CheckpointOf(base.prompt, Init(base.accepted), |draft|) && UseCheckpoint(p.kind, |draft|)
      modifies this`isReplay, this`draft, this`mem, this`prompt, this`accepted, this`folded
      ensures isReplay && draft == ids && accepted == saved
      ensures prompt == base.prompt && folded == Init(base.accepted) && Mirrored() && ckpt.dataTgt == mem.state
    {
      isReplay := true;
      draft := ids;
      mem := mem.(state := ckpt.dataTgt);
      assert SeqRm(Cells(prompt), |base.prompt|, -1) == Cells(base.prompt);
      mem := TruncateFrom(p.kind, mem, ckpt.posMax + 1);
      prompt := prompt[..ckpt.nTokens];
      folded := Init(base.accepted);
      accepted := saved;
    }

    /** The draft replaced by the accepted tokens but the last is a prefix of what the batch put there. */
    lemma CommitIsPrefix(before: seq<Token>, draft: seq<Token>, ids: seq<Token>)
      requires 1 <= |ids| <= |draft| + 1 && (forall k :: 0 <= k < |ids| - 1 ==> ids[k] == draft[k])
      ensures (before + draft)[..|before + draft| - |draft|] == before && ids[..|ids| - 1] == Init(ids)
      ensures before + Init(ids) == (before + draft)[..|before| + |ids| - 1]
    {}

    lemma CommitMemory(base: Serial, ids: seq<Token>)
      requires Mirrored() && prompt == base.prompt + [sampled] + draft && folded == base.accepted + draft
      requires 1 <= |ids| <= |draft| + 1 && (forall k :: 0 <= k < |ids| - 1 ==> ids[k] == draft[k])
      requires CanRollback(p.kind, |draft| + 1 - |ids|)
      ensures prompt[..|prompt| - |draft|] + ids[..|ids| - 1] == base.prompt + [sampled] + Init(ids)
      ensures var n := |base.prompt| + |ids|;
              && CanRollback(p.kind, Rollback(mem, n)) && (mem.state.Folded? ==> Rollback(mem, n) <= |mem.state.toks|)
              && TruncateFrom(p.kind, mem, n)
                  == Mirror(p.kind, base.prompt + [sampled] + Init(ids), base.accepted + Init(ids))
    {
      CommitIsPrefix(base.prompt + [sampled], draft, ids);
      CommitIsPrefix(base.accepted, draft, ids);
      TruncateKeepsPrefix(p.kind, prompt, folded, |base.prompt| + |ids|);
    }

    /** Acceptance that the memory can follow: replace the draft by the accepted tokens. */
    method Commit(ghost base: Serial, ids: seq<Token>)
      requires Mirrored() && prompt == base.prompt + [sampled] + draft && folded == base.accepted + draft
      requires 1 <= |ids| <= |draft| + 1 && (forall k :: 0 <= k < |ids| - 1 ==> ids[k] == draft[k])
      requires CanRollback(p.kind, |draft| + 1 - |ids|)
      modifies this`isReplay, this`draft, this`mem, this`prompt, this`sampled, this`nDraftAccepted, this`folded
      ensures !isReplay && draft == [] && sampled == Last(ids)
      ensures prompt == base.prompt + [old(sampled)] + Init(ids) && folded == base.accepted + Init(ids) && Mirrored()
      ensures nDraftAccepted == old(nDraftAccepted) + (if old(isReplay) then Max(0, |ids| - 2) else |ids| - 1)
    {
      var nAccepted := |ids| - 1;
      if isReplay && nAccepted > 0 {
        nAccepted := nAccepted - 1;
      }
      isReplay := false;
      nDraftAccepted := nDraftAccepted + nAccepted;
      CommitMemory(base, ids);
      prompt := prompt[..|prompt| - |draft|] + ids[..|ids| - 1];
      draft := [];
      sampled := ids[|ids| - 1];
      mem := TruncateFrom(p.kind, mem, |prompt|);
      folded := base.accepted + Init(ids);
    }

    /** post_decode without a draft: one row, one token. */
    method SampleOne(view: Memory, halts: nat -> bool)
      requires generating && nGen == |emitted|
      modifies this`sampled, this`accepted, this`emitted, this`nGen, this`generating, this`draft, this`isReplay
      ensures var id := next(view, old(accepted));
              && sampled == id && accepted == old(accepted) + [id] && emitted == old(emitted) + [id]
                  && nGen == |emitted|
      ensures generating <==> !Ends(p, halts(nGen), |prompt|, nGen)
      ensures if generating then draft == old(draft) && isReplay == old(isReplay) else draft == [] && !isReplay
    {
      var id := next(view, accepted);
      accepted := accepted + [id];
      nGen := nGen + 1;
      var more := ProcessToken(id, halts(nGen));
      if !more {
        Release();
      }
    }

    /** The slot between decode and post_decode: the batch that follows the serial state base is in
        memory, and views are its rows. */
    ghost predicate Decoded(base: Serial, views: seq<Memory>)
      reads `prompt, `sampled, `mem, `generating, `draft, `isReplay, `ckpt, `nGen, `nDraftTokens, `nDraftAccepted,
            `emitted, `folded
    {
      InBatch(base) && ViewsOf(p, base, draft, views)
    }

    ghost predicate InBatch(base: Serial)
      reads `prompt, `sampled, `mem, `generating, `draft, `isReplay, `ckpt, `nGen, `nDraftTokens, `nDraftAccepted,
            `emitted, `folded
    {
      && BatchReady(base)
      && prompt == base.prompt + [sampled] + draft && folded == base.accepted + draft && Mirrored()
    }

    /** Sampled token and draft are ready to be decoded after base. */
    ghost predicate BatchReady(base: Serial)
      reads `sampled, `generating, `draft, `isReplay, `ckpt, `nGen, `nDraftTokens, `nDraftAccepted, `emitted
    {
      TokenReady(base) && (isReplay ==> draft != []) && (draft != [] ==> Verifiable(base))
    }

    /** The sampled token is ready to be decoded after base. */
    ghost predicate TokenReady(base: Serial)
      reads `sampled, `generating, `nGen, `nDraftTokens, `nDraftAccepted, `emitted
    {
      && ValidParams(p) && generating && nGen == |emitted| && emitted != [] && SerialPrefix(next, p, input, emitted)
      && base == Reference().(prompt := Room(p, Reference().prompt))
      && sampled == base.sampled == Last(emitted) && base.accepted == input + emitted
      && (!p.ctxShift ==> base.prompt + [sampled] == input + emitted && !NeedsShift(p, |base.prompt|))
      && ((p.ctxShift ==> p.nDiscard >= 0) ==> !NeedsShift(p, |base.prompt|))
      && (p.nPredict != -1 ==> nGen < p.nPredict)
      && nDraftAccepted <= nDraftTokens
    }

    /** The draft in the batch fits, is accounted for, and can be either replayed or restored. */
    ghost predicate Verifiable(base: Serial)
      requires ValidParams(p) && base.accepted != []
      reads `draft, `isReplay, `ckpt, `nGen, `nDraftTokens, `nDraftAccepted
    {
      && |base.prompt| + |draft| + 2 <= p.nCtx
      && (p.nPredict != -1 ==> nGen + |draft| + 1 <= p.nPredict)
      && nDraftAccepted + |draft| - (if isReplay then 1 else 0) <= nDraftTokens
      && if isReplay then Continues(next, p, base, draft) else CheckpointOf(base.prompt, Init(base.accepted), |draft|)
    }

    /** The batch of the slot, decoded: its rows see the serial prefixes of the draft. */
    method DecodeBatch(ghost base: Serial) returns (views: seq<Memory>)
      requires base == Serial(prompt, sampled, accepted) && Sampled(base) && folded == Init(base.accepted) && Mirrored()
      modifies this`prompt, this`mem, this`folded
      ensures prompt == base.prompt + [sampled] + draft && folded == base.accepted + draft && Mirrored()
      ensures ViewsOf(p, base, draft, views)
    {
      var rows := HandleLastSampledToken();
      mem, views := Decode(mem, rows);
      BatchViews(p, base, draft, rows, mem, views);
      FoldSampled(base, draft);
      Assoc(base.prompt, [sampled], draft);
      folded := base.accepted + draft;
    }

    /** The context shift of one iteration; base is the serial state to go on from. */
    method MakeRoom() returns (ghost base: Serial)
      requires Valid() && generating
      modifies `prompt, `mem, `truncated
      ensures TokenReady(base) && base == Serial(prompt, sampled, accepted) && prompt == Room(p, old(prompt))
      ensures folded == Init(base.accepted) && Sampled(base) && Mirrored()
      ensures draft != [] ==> isReplay && Verifiable(base)
      ensures isReplay ==> draft != [] && prompt == old(prompt)
    {
      ContextShift();
      base := Serial(prompt, sampled, accepted);
      assert Init(input + emitted) == input + Init(emitted);
      if p.ctxShift && |old(prompt)| == p.nCtx - 1 {
        ShiftMakesRoomIff(p, old(prompt));
      }
    }

    /** pre_decode of one iteration, up to the batch. */
    method BeginBatch(drafted: seq<Token>) returns (ghost base: Serial)
      requires Valid() && generating
      requires draft == [] ==> |drafted| <= Max(0, DraftMax(p, |Room(p, prompt)|, nGen))
      modifies `prompt, `mem, `truncated, `draft, `ckpt, `nDraftTokens
      ensures BatchReady(base) && base == Serial(prompt, sampled, accepted) && Sampled(base)
      ensures folded == Init(base.accepted) && Mirrored()
      ensures draft == if old(draft) == [] then drafted else old(draft)
      ensures nDraftTokens == old(nDraftTokens) + if old(draft) == [] then |drafted| else 0
    {
      base := MakeRoom();
      PrepareDraft(drafted);
    }

    /** pre_decode and decode of one iteration. */
    method Propose(drafted: seq<Token>) returns (ghost base: Serial, views: seq<Memory>)
      requires Valid() && generating
      requires draft == [] ==> |drafted| <= Max(0, DraftMax(p, |Room(p, prompt)|, nGen))
      modifies `prompt, `mem, `truncated, `draft, `ckpt, `nDraftTokens, `folded
      ensures Decoded(base, views) && accepted == base.accepted && old(folded) == Init(base.accepted)
      ensures draft == if old(draft) == [] then drafted else old(draft)
      ensures nDraftTokens == old(nDraftTokens) + if old(draft) == [] then |drafted| else 0
    {
      base := BeginBatch(drafted);
      label Ready:
      views := DecodeBatch(base);
      StillReady@Ready(base);
    }

    twostate lemma StillReady(base: Serial)
      requires old(BatchReady(base))
      requires unchanged(this`sampled, this`generating, this`draft, this`isReplay, this`ckpt, this`nGen)
      requires unchanged(this`nDraftTokens, this`nDraftAccepted, this`emitted)
      ensures BatchReady(base)
    {}

    /** The one row of a round without a draft samples the next serial token. */
    lemma PlainContinues(base: Serial, views: seq<Memory>)
      requires Decoded(base, views) && draft == []
      ensures var id := next(views[0], base.accepted);
              && SerialPrefix(next, p, input, emitted + [id])
              && SerialRun(next, p, Start(next, p, input), |emitted|) == Serial(prompt, id, base.accepted + [id])
    {
      var id, ref := next(views[0], base.accepted), Reference();
      assert prompt == base.prompt + [sampled] && base.accepted + draft[..0] == base.accepted;
      assert SerialRun(next, p, ref, 1) == SerialRun(next, p, SerialStep(next, p, ref), 0);
      ExtendPrefix(next, p, input, emitted, ref, [id], 1);
      RunFromBase(next, p, input, emitted, ref, 1);
    }

    lemma ReachedInStep(was: seq<Token>)
      requires ValidParams(p) && emitted == was + [sampled] && accepted == input + emitted && folded == input + was
      requires SerialRun(next, p, Start(next, p, input), |was|) == Serial(prompt, sampled, accepted)
      requires !p.ctxShift ==> prompt + [sampled] == input + emitted && !NeedsShift(p, |prompt|)
      requires p.nPredict != -1 ==> nGen < p.nPredict
      ensures InStep()
    {
      assert Reference() == Serial(prompt, sampled, accepted) && Init(emitted) == was;
    }

    /** What a round that emitted leaves: it put ids behind what was emitted before, all but the last into the
        context, and emitted them up to the first that ends the request. The context then holds the input and all
        emitted tokens but the last if and only if no token before the last of ids ended the request. */
    ghost predicate Committed(halts: nat -> bool, was: seq<Token>, ids: seq<Token>)
      requires ValidParams(p)
      reads `emitted, `folded, `prompt, `generating, `nGen
    {
      var n := |emitted| - |was|;
      && n >= 1 && EmitsUpTo(p, halts, |prompt|, |was|, n, |ids|)
      && emitted == was + ids[..n] && nGen == |emitted|
      && folded == input + was + Init(ids)
      && (folded == input + Init(emitted) <==> RunsThrough(p, halts, |prompt|, |was|, |ids|))
      && (generating <==> !Ends(p, halts(nGen), |prompt|, nGen))
      && SerialPrefix(next, p, input, was + ids)
    }

    /** post_decode of a round without a draft. */
    method FinishPlain(ghost base: Serial, views: seq<Memory>, halts: nat -> bool) returns (ids: seq<Token>)
      requires Decoded(base, views) && accepted == base.accepted && draft == []
      modifies `sampled, `accepted, `emitted, `nGen, `generating, `draft, `isReplay
      ensures Valid() && !isReplay && |ids| == 1 && Committed(halts, old(emitted), ids)
    {
      ghost var was := emitted;
      var id := next(views[0], accepted);
      ids := [id];
      PlainContinues(base, views);
      assert folded == input + was;
      SampleOne(views[0], halts);
      Assoc(input, was, [id]);
      assert Init(emitted) == was && Init(ids) == [] && input + was + [] == input + was && was + ids[..1] == emitted;
      if generating {
        ReachedInStep(was);
      }
    }

    /** ids is what verifying the draft after base returns: the next tokens of serial decoding, all but
        the last of them taken from the draft, and the whole draft if it is a replay. */
    ghost predicate Returned(base: Serial, ids: seq<Token>)
      requires ValidParams(p)
      reads `draft, `isReplay
    {
      Verified(ids, draft, 0) && (isReplay ==> |ids| == |draft| + 1) && Follows(next, p, base, ids)
    }

    lemma VerificationReturns(base: Serial, views: seq<Memory>)
      requires Decoded(base, views) && draft != []
      ensures Returned(base, AcceptFrom(next, views, draft, base.accepted, 0))
    {
      assert base.prompt + [base.sampled] + draft[..0] == base.prompt + [base.sampled];
      assert base.accepted + draft[..0] == base.accepted;
      AcceptedIsSerial(next, p, base, base, draft, views, 0);
      AcceptedFromDraft(next, draft, views, base.accepted, 0);
      if isReplay {
        SerialDraftAccepted(next, p, base, base, draft, views, 0);
      }
    }

    /** The restore branch of post_decode. */
    method FinishByRestore(ghost base: Serial, ids: seq<Token>, saved: seq<Token>)
      requires InBatch(base) && draft != [] && Returned(base, ids) && saved == base.accepted
      requires |ids| <= |draft| && UseCheckpoint(p.kind, |draft| + 1 - |ids|)
      modifies `isReplay, `draft, `mem, `prompt, `accepted, `folded
      ensures Valid() && generating && isReplay && draft == ids && emitted == old(emitted) && !old(isReplay)
      ensures folded == Init(base.accepted) && !NeedsShift(p, |prompt|)
      ensures CheckpointOf(prompt, folded, |draft|) && ckpt.dataTgt == mem.state
    {
      assert Init(input + emitted) == input + Init(emitted);
      assert !p.ctxShift ==> base.prompt == Init(base.prompt + [sampled]);
      Restore(base, ids, saved);
      assert InStep() && Pending();
    }

    lemma CommitReaches(base: Serial, was: seq<Token>, ids: seq<Token>)
      requires ValidParams(p) && ShiftedStateAfter(next, p, input, was, base) && ids != [] && emitted == was + ids
      ensures Reference() == SerialRun(next, p, base, |ids|)
    {
      RunFromBase(next, p, input, was, base, |ids|);
    }

    /** After a commit whose tokens were all emitted the slot is in step again. */
    lemma CommitInStep(base: Serial, was: seq<Token>, ids: seq<Token>)
      requires ValidParams(p) && ShiftedStateAfter(next, p, input, was, base) && Follows(next, p, base, ids)
      requires base.accepted == input + was && emitted == was + ids && folded == base.accepted + Init(ids)
      requires Serial(prompt, sampled, accepted) == SerialRun(next, p, base, |ids|)
      requires !p.ctxShift ==> base.prompt + [base.sampled] == input + was && !NeedsShift(p, |prompt|)
      requires p.nPredict != -1 ==> nGen < p.nPredict
      ensures InStep()
    {
      CommitReaches(base, was, ids);
      assert Reference() == Serial(prompt, sampled, accepted);
      assert accepted == input + emitted by { Assoc(input, was, ids); }
      assert folded == input + Init(emitted) by {
        Assoc(input, was, Init(ids));
        assert Init(was + ids) == was + Init(ids);
      }
      if !p.ctxShift {
        InitLast(base.prompt + [base.sampled], ids);
        Assoc(input, was, ids);
      }
    }

    lemma CommitBounded(base: Serial, ids: seq<Token>, n: nat)
      requires ValidParams(p) && 1 <= n <= |ids| && prompt == base.prompt + [base.sampled] + Init(ids)
      requires nGen == |emitted| && (p.nPredict != -1 ==> nGen <= p.nPredict)
      requires |base.prompt| + |ids| + 1 <= p.nCtx
      ensures Bounded()
    {}

    /** After a commit of which the first n tokens were emitted. */
    lemma CommitStands(base: Serial, was: seq<Token>, ids: seq<Token>, n: nat, halts: nat -> bool)
      requires ValidParams(p) && base.accepted == input + was && 1 <= n <= |ids|
      requires SerialPrefix(next, p, input, was + ids[..n]) && SerialPrefix(next, p, input, was + ids)
      requires EmitsUpTo(p, halts, |prompt|, |was|, n, |ids|) && emitted == was + ids[..n] && sampled == ids[n - 1]
      requires folded == base.accepted + Init(ids) && nGen == |emitted|
               && (generating <==> !Ends(p, halts(nGen), |prompt|, nGen))
      ensures Emitted() && Committed(halts, was, ids)
    {
      CommittedHolds(input, was, ids, n);
      CommittedExactIff(p, halts, |prompt|, input, was, ids, n);
    }

    /** The commit branch of post_decode, as field changes. */
    method CommitAndEmit(ghost base: Serial, ids: seq<Token>, halts: nat -> bool) returns (ghost n: nat)
      requires ValidParams(p) && Mirrored() && prompt == base.prompt + [sampled] + draft
               && folded == base.accepted + draft
      requires Verified(ids, draft, 0) && CanRollback(p.kind, |draft| + 1 - |ids|) && generating && nGen == |emitted|
      modifies `isReplay, `draft, `mem, `prompt, `sampled, `nDraftAccepted, `folded, `emitted, `nGen, `generating
      ensures prompt == base.prompt + [old(sampled)] + Init(ids) && folded == base.accepted + Init(ids) && Mirrored()
      ensures EmitsUpTo(p, halts, |prompt|, old(nGen), n, |ids|)
      ensures emitted == old(emitted) + ids[..n] && sampled == ids[n - 1] && nGen == |emitted|
      ensures generating <==> !Ends(p, halts(nGen), |prompt|, nGen)
      ensures draft == [] && !isReplay && (generating ==> n == |ids|)
      ensures nDraftAccepted == old(nDraftAccepted) + (if old(isReplay) then Max(0, |ids| - 2) else |ids| - 1)
    {
      Commit(base, ids);
      n := EmitAll(ids, halts);
    }

    /** The commit branch of post_decode and the emission of the accepted tokens. */
    method FinishByCommit(ghost base: Serial, ids: seq<Token>, halts: nat -> bool)
      requires InBatch(base) && draft != [] && Returned(base, ids) && accepted == base.accepted + ids
      requires CanRollback(p.kind, |draft| + 1 - |ids|)
      modifies `isReplay, `draft, `mem, `prompt, `sampled, `nDraftAccepted, `folded, `emitted, `nGen, `generating
      ensures Valid() && !isReplay && Committed(halts, old(emitted), ids)
      ensures nDraftAccepted == old(nDraftAccepted) + if old(isReplay) then Max(0, |ids| - 2) else |ids| - 1
    {
      ghost var was := emitted;
      assert ShiftedStateAfter(next, p, input, was, base);
      ghost var n := CommitAndEmit(base, ids, halts);
      CommitBounded(base, ids, n);
      ExtendPrefixes(next, p, input, was, base, ids, n);
      CommitStands(base, was, ids, n, halts);
      if generating {
        assert ids[..|ids|] == ids;
        CommitInStep(base, was, ids);
      }
    }

    /** post_decode of a round with a draft. */
    method FinishDraft(ghost base: Serial, views: seq<Memory>, halts: nat -> bool) returns (ids: seq<Token>)
      requires Decoded(base, views) && accepted == base.accepted && draft != []
      modifies `isReplay, `draft, `mem, `prompt, `accepted, `sampled, `nDraftAccepted, `folded, `emitted, `nGen,
               `generating
      ensures Valid() && Verified(ids, old(draft), 0) && (old(isReplay) ==> |ids| == |old(draft)| + 1)
      ensures isReplay <==> |ids| <= |old(draft)| && UseCheckpoint(p.kind, |old(draft)| + 1 - |ids|)
      ensures isReplay ==> generating && draft == ids && emitted == old(emitted) && !NeedsShift(p, |prompt|)
      ensures isReplay ==> folded == Init(base.accepted)
      ensures isReplay ==> CheckpointOf(prompt, folded, |draft|) && ckpt.dataTgt == mem.state
      ensures !isReplay ==> Committed(halts, old(emitted), ids)
      ensures nDraftAccepted == old(nDraftAccepted) +
                if isReplay then 0 else if old(isReplay) then Max(0, |ids| - 2) else |ids| - 1
    {
      VerificationReturns(base, views);
      var saved := accepted;
      ids := SampleAndAccept(views);
      var nRollback := |draft| + 1 - |ids|;
      if nRollback > 0 && UseCheckpoint(p.kind, nRollback) {
        FinishByRestore(base, ids, saved);
      } else {
        FinishByCommit(base, ids, halts);
      }
    }

    /** post_decode, with a draft or without. */
    method Finish(ghost base: Serial, views: seq<Memory>, halts: nat -> bool) returns (ids: seq<Token>)
      requires Decoded(base, views) && accepted == base.accepted
      modifies `isReplay, `draft, `mem, `prompt, `accepted, `sampled, `nDraftAccepted, `folded, `emitted, `nGen,
               `generating
      ensures Valid() && Verified(ids, old(draft), 0) && (old(isReplay) ==> |ids| == |old(draft)| + 1)
      ensures isReplay <==> |ids| <= |old(draft)| && UseCheckpoint(p.kind, |old(draft)| + 1 - |ids|)
      ensures isReplay ==> generating && draft == ids && emitted == old(emitted) && !NeedsShift(p, |prompt|)
      ensures isReplay ==> folded == Init(base.accepted)
      ensures isReplay ==> CheckpointOf(prompt, folded, |draft|) && ckpt.dataTgt == mem.state
      ensures !isReplay ==> Committed(halts, old(emitted), ids)
      ensures nDraftAccepted == old(nDraftAccepted) +
                if isReplay then 0 else if old(isReplay) then Max(0, |ids| - 2) else |ids| - 1
    {
      if draft == [] {
        ids := FinishPlain(base, views, halts);
      } else {
        ids := FinishDraft(base, views, halts);
      }
    }

    /** One iteration of update_slots for this slot, decoded in one view: for whatever the drafter
        proposes and whichever token ends the request, the slot stays in step with serial decoding
        and its memory stays the mirror of its prompt. ids are the tokens that verification returned. */
    method Round(drafted: seq<Token>, halts: nat -> bool) returns (ghost ids: seq<Token>)
      requires Valid() && generating
      requires draft == [] ==> |drafted| <= Max(0, DraftMax(p, |Room(p, prompt)|, nGen))
      modifies this
      ensures Valid() && mem.cells == Cells(prompt)
      ensures Verified(ids, if old(draft) == [] then drafted else old(draft), 0)
      // a replayed draft is accepted whole, with one more token
      ensures old(isReplay) ==> |ids| == |old(draft)| + 1
      // a round restores exactly if the memory cannot be rolled back as far as needed; the checkpoint is one of
      // exactly the current prefix, nothing is emitted, and the replay that is left fits without a shift
      ensures isReplay <==> var d := if old(draft) == [] then drafted else old(draft);
                            |ids| <= |d| && UseCheckpoint(p.kind, |d| + 1 - |ids|)
      ensures isReplay ==> generating && draft == ids && emitted == old(emitted) && folded == old(folded)
      ensures isReplay ==> !NeedsShift(p, |prompt|)
      ensures isReplay ==> CheckpointOf(prompt, folded, |draft|) && ckpt.dataTgt == mem.state
      // otherwise it emits at least one token, and stops exactly at one that ends the request
      ensures !isReplay ==> Committed(halts, old(emitted), ids)
      // a draft is counted when it is new; of what was accepted, the token that a restore found is not counted again
      ensures nDraftTokens == old(nDraftTokens) + if old(draft) == [] then |drafted| else 0
      ensures nDraftAccepted == old(nDraftAccepted) +
                if isReplay then 0 else if old(isReplay) then Max(0, |ids| - 2) else |ids| - 1
    {
      var base, views := Propose(drafted);
      ids := Finish(base, views, halts);
    }
  }

  /** Whole runs: any drafter, any acceptance pattern, any mix of commits and replays, any end of the
      request, any kind of memory, with and without shifting. The emitted tokens are a prefix of the serial
      trajectory, the memory mirrors the prompt, the slot stops only at a token that ends the request, and one that
      still generates after n rounds has emitted at least n/2 tokens. last is what verification returned in the last
      round that emitted, after the first before tokens. */
  method Generate(next: Target, p: Params, prompt: seq<Token>, drafter: nat -> seq<Token>, halts: nat -> bool,
      rounds: nat)
      returns (slot: Slot, ghost before: nat, ghost last: seq<Token>)
    requires ValidParams(p) && 0 < |prompt| < p.nCtx
    ensures slot.Valid() && slot.next == next && slot.p == p && slot.input == prompt
    ensures SerialPrefix(next, p, prompt, slot.emitted)
    ensures slot.mem == Mirror(p.kind, slot.prompt, slot.folded) && slot.sampled == Last(slot.emitted)
    // prompt.tokens is the input and what was emitted, as long as the slot generates; at the end it holds the input,
    // what was emitted before the last round, and what that round accepted but for the last token
    ensures slot.generating && !p.ctxShift ==> slot.prompt + [slot.sampled] == prompt + slot.emitted
    ensures !p.ctxShift ==> slot.prompt == slot.folded
    ensures before < |slot.emitted| && last != [] && slot.folded == prompt + slot.emitted[..before] + Init(last)
    // which is the input and all emitted tokens but the last if and only if none before the last of them ended it
    ensures prompt + Init(slot.emitted) <= slot.folded
    ensures slot.folded == prompt + Init(slot.emitted) <==> RunsThrough(p, halts, |slot.prompt|, before, |last|)
    ensures !slot.generating ==> Ends(p, halts(|slot.emitted|), |slot.prompt|, |slot.emitted|)
    ensures slot.generating ==> rounds <= 2 * |slot.emitted|
  {
    slot := new Slot(next, p, prompt);
    slot.SampleFirst(halts);
    before, last := 0, slot.emitted;
    assert Init(last) == [] && prompt + [] + [] == prompt;
    var i := 0;
    while i < rounds && slot.generating
      invariant slot.Valid() && slot.next == next && slot.p == p && slot.input == prompt && fresh(slot)
      invariant slot.generating ==> i + 2 <= 2 * |slot.emitted| + (if slot.isReplay then 1 else 0)
      invariant !slot.generating ==> Ends(p, halts(|slot.emitted|), |slot.prompt|, |slot.emitted|)
      invariant before < |slot.emitted| && last != [] && slot.folded == prompt + slot.emitted[..before] + Init(last)
      invariant slot.folded == prompt + Init(slot.emitted) <==> RunsThrough(p, halts, |slot.prompt|, before, |last|)
      decreases rounds - i
    {
      var nMax := Max(0, DraftMax(p, |Room(p, slot.prompt)|, slot.nGen));
      var drafted := drafter(i);
      ghost var was, held := slot.emitted, |slot.prompt|;
      ghost var ids := slot.Round(if |drafted| <= nMax then drafted else drafted[..nMax], halts);
      if slot.isReplay {
        PromptMattersOnlyUnshifted(p, halts, held, |slot.prompt|, before, |last|);
      } else {
        before, last := |was|, ids;
        assert slot.emitted[..before] == was;
      }
      i := i + 1;
    }
  }

  lemma PromptMattersOnlyUnshifted(p: Params, halts: nat -> bool, n: nat, n': nat, g: nat, m: nat)
    requires p.ctxShift || n == n'
    ensures RunsThrough(p, halts, n, g, m) <==> RunsThrough(p, halts, n', g, m)
  {
    forall t: nat ensures Ends(p, halts(t), n, t) <==> Ends(p, halts(t), n', t) {}
  }

  lemma {:induction false} AlwaysZero(next: Target, p: Params, s: Serial, k: nat)
    requires ValidParams(p) && s.sampled == 0 && forall m, a :: next(m, a) == 0
    ensures SerialRun(next, p, s, k).sampled == 0
    decreases k
  {
    if k > 0 {
      AlwaysZero(next, p, SerialStep(next, p, s), k - 1);
    }
  }

  /** A request that ends on the first token of an accepted draft: its last round puts two tokens more into the
      context than it emits. */
  method EndsInsideAcceptedDraft() returns (slot: Slot)
    ensures slot.Valid() && !slot.generating && !slot.p.ctxShift
    ensures slot.input == [1] && slot.emitted == [0, 0] && slot.prompt == [1, 0, 0, 0]
    ensures slot.prompt + [slot.sampled] != slot.input + slot.emitted
  {
    var next: Target := (m, a) => 0;
    var p := Params(Part, 100, -1, false, 1, 0, 0, false);
    var halts: nat -> bool := g => g == 2;
    slot := new Slot(next, p, [1]);
    slot.SampleFirst(halts);
    assert slot.emitted == [0];
    assert Room(p, slot.prompt) == [1] && DraftMax(p, 1, slot.nGen) == 97;
    ghost var ids := slot.Round([0, 0], halts);
    forall k | 0 <= k < |ids| ensures ids[k] == 0 {
      AlwaysZero(next, p, Start(next, p, [1]), 1 + k);
      assert ([0] + ids)[1 + k] == ids[k];
    }
    assert Last(ids) == 0 && |ids| == 3;
    assert Ends(p, halts(2), |slot.prompt|, 2);
    ghost var n := |slot.emitted| - 1;
    assert RunsThrough(p, halts, |slot.prompt|, 1, n);
    assert n == 1;
    assert slot.emitted == [0] + ids[..1] == [0, 0];
    assert slot.folded == [1] + [0] + Init(ids) == [1, 0, 0, 0];
    assert !slot.generating;
  }

  /** A memory that cannot be rolled back at all, with shifting on: one wrong draft token leaves a replay. */
  method ReplayWhileShiftingIsOn() returns (slot: Slot)
    ensures slot.Valid() && slot.generating && slot.isReplay && slot.p.ctxShift && slot.p.kind == Full
    ensures slot.draft == [0] && slot.prompt == [1] && slot.emitted == [0]
  {
    var next: Target := (m, a) => 0;
    var p := Params(Full, 100, -1, true, 1, 0, 0, false);
    var halts: nat -> bool := g => false;
    slot := new Slot(next, p, [1]);
    slot.SampleFirst(halts);
    assert slot.emitted == [0];
    assert Room(p, slot.prompt) == [1] && DraftMax(p, 1, slot.nGen) == 97;
    ghost var ids := slot.Round([1], halts);
    AlwaysZero(next, p, Start(next, p, [1]), 1);
    assert ([0] + ids)[1] == ids[0] == 0;
    assert ids == [0];
  }
}
