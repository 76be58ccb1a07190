/**
 Serial (one token per decode) generation: the reference against which the
 speculative slot is judged, together with the acceptance rule and the facts
 that connect the two.
 */
module SerialDecoding {
  import opened Helpers
  import opened KvMemory

  /** A deterministic target and sampler: the token sampled from the logits of a row that
      sees the given memory, by a sampler that has accepted the given tokens so far. */
  type Target = (Memory, seq<Token>) -> Token

  /** The task and server parameters that generation depends on. nInput is the prompt length;
      nPredict == -1 means unlimited, nKeep < 0 keeps the prompt, nDiscard == 0 discards half. */
  datatype Params = Params(kind: SeqRmKind, nCtx: int, nPredict: int, ctxShift: bool,
                           nInput: nat, nKeep: int, nDiscard: int, addBos: bool)

  /** The arithmetic of the shift leaves four positions after the kept prefix. Whether the memory can
      shift and how it can be rolled back are independent of each other. */
  predicate ValidParams(p: Params) {
    4 <= p.nCtx
  }

  function KeepCount(p: Params): int {
    Min(p.nCtx - 4, (if p.nKeep < 0 then p.nInput else p.nKeep) + (if p.addBos then 1 else 0))
  }

  /** How many tokens a shift of an n-token prompt drops. */
  function DiscardCount(p: Params, n: nat): int {
    var nLeft := n - KeepCount(p);
    var wanted := if p.nDiscard != 0 then p.nDiscard else nLeft / 2;
    Max(0, Min(wanted, Max(0, nLeft - 1)))
  }

  predicate NeedsShift(p: Params, n: nat) {
    n + 1 >= p.nCtx
  }

  /** The prompt with which the next token is decoded: shifted when full, if shifting is on. */
  function Room(p: Params, s: seq<Token>): seq<Token>
    requires ValidParams(p)
  {
    if NeedsShift(p, |s|) && p.ctxShift then
      var k, d := KeepCount(p), DiscardCount(p, |s|);
      s[..k] + s[k + d..]
    else s
  }

  /** What a shift drops is in the middle: it starts within the prompt and stops short of the last token. */
  lemma ShiftIsInside(p: Params, n: nat)
    requires ValidParams(p) && NeedsShift(p, n)
    ensures var (k, d) := (KeepCount(p), DiscardCount(p, n));
            0 <= k < n && 0 <= d && k + d <= n && (d == 0 || k + d < n)
  {}

  /** after keeps the first k tokens of before, then drops as many as the request asks for, half of the rest if it
      leaves that open, never the last one, and keeps all that follow. */
  ghost predicate KeepsThenDrops(p: Params, before: seq<Token>, after: seq<Token>, k: nat) {
    && k <= |after| <= |before| && after[..k] == before[..k]
    && var dropped := |before| - |after|;
       && after[k..] == before[k + dropped..]
       && (p.nDiscard == 0 ==> dropped == (|before| - k) / 2)
       && (p.nDiscard > 0 ==> dropped == if p.nDiscard < |before| - k then p.nDiscard else |before| - k - 1)
       && (p.nDiscard < 0 ==> dropped == 0)
  }

  /** What a context shift keeps: the whole input if n_keep is negative, n_keep tokens otherwise, and one more for a
      beginning-of-sequence token, but at most n_ctx - 4 of them. */
  ghost predicate ShiftsTo(p: Params, before: seq<Token>, after: seq<Token>)
    requires ValidParams(p)
  {
    var bos, limit := if p.addBos then 1 else 0, p.nCtx - 4;
    && (p.nKeep < 0 && p.nInput + bos <= limit ==> KeepsThenDrops(p, before, after, p.nInput + bos))
    && (p.nKeep >= 0 && p.nKeep + bos <= limit ==> KeepsThenDrops(p, before, after, p.nKeep + bos))
    && (p.nKeep < 0 && p.nInput + bos > limit ==> KeepsThenDrops(p, before, after, limit))
    && (p.nKeep >= 0 && p.nKeep + bos > limit ==> KeepsThenDrops(p, before, after, limit))
  }

  lemma RoomShifts(p: Params, s: seq<Token>)
    requires ValidParams(p) && p.ctxShift && NeedsShift(p, |s|)
    ensures ShiftsTo(p, s, Room(p, s))
  {
    ShiftIsInside(p, |s|);
    DropIs(p, s, Room(p, s), KeepCount(p), DiscardCount(p, |s|));
  }

  lemma DropIs(p: Params, s: seq<Token>, after: seq<Token>, k: nat, d: nat)
    requires k + d <= |s| && k < |s| && after == s[..k] + s[k + d..]
    requires d == Max(0, Min(if p.nDiscard != 0 then p.nDiscard else (|s| - k) / 2, |s| - k - 1))
    ensures KeepsThenDrops(p, s, after, k)
  {
    assert |s| - |after| == d && after[k..] == s[k + d..];
  }

  /** Such as this: of fifteen tokens, eight of them the input, a full slot keeps those eight and drops
      the next three. */
  lemma ShiftKeepsTheInput()
    ensures var p := Params(Part, 16, -1, true, 8, -1, 0, false);
            var before := seq(15, i => i);
            ValidParams(p) && NeedsShift(p, 15) && Room(p, before) == [0, 1, 2, 3, 4, 5, 6, 7, 11, 12, 13, 14]
  {}

  /** After a shift of a slot that is exactly full there is room again, if and only if the
      request did not ask for a negative number of discarded tokens. */
  lemma ShiftMakesRoomIff(p: Params, s: seq<Token>)
    requires ValidParams(p) && p.ctxShift && |s| == p.nCtx - 1
    ensures !NeedsShift(p, |Room(p, s)|) <==> p.nDiscard >= 0
    ensures p.nDiscard < 0 ==> Room(p, s) == s
  {
    assert |Room(p, s)| == |s| - DiscardCount(p, |s|);
    if p.nDiscard < 0 {
      assert DiscardCount(p, |s|) == 0;
    }
  }

  /** A serially generating slot: everything before the last sampled token is in memory. What was folded
      into a running state are all tokens accepted so far but the last, whatever was shifted out since. */
  datatype Serial = Serial(prompt: seq<Token>, sampled: Token, accepted: seq<Token>)

  function Start(next: Target, p: Params, input: seq<Token>): Serial {
    var t := next(Mirror(p.kind, input, input), input);
    Serial(input, t, input + [t])
  }

  function SerialStep(next: Target, p: Params, s: Serial): Serial
    requires ValidParams(p)
  {
    var prompt := Room(p, s.prompt) + [s.sampled];
    var t := next(Mirror(p.kind, prompt, s.accepted), s.accepted);
    Serial(prompt, t, s.accepted + [t])
  }

  function SerialRun(next: Target, p: Params, s: Serial, k: nat): Serial
    requires ValidParams(p)
    decreases k
  {
    if k == 0 then s else SerialRun(next, p, SerialStep(next, p, s), k - 1)
  }

  lemma {:induction false} RunCompose(next: Target, p: Params, s: Serial, a: nat, b: nat)
    requires ValidParams(p)
    ensures SerialRun(next, p, SerialRun(next, p, s, a), b) == SerialRun(next, p, s, a + b)
    decreases a
  {
    if a > 0 {
      RunCompose(next, p, SerialStep(next, p, s), a - 1, b);
    }
  }

  /** The tokens ts are what serial decoding produces next from s. */
  ghost predicate Continues(next: Target, p: Params, s: Serial, ts: seq<Token>)
    requires ValidParams(p)
  {
    forall k :: 0 <= k < |ts| ==> ts[k] == SerialRun(next, p, s, k + 1).sampled
  }

  /** common_sampler_sample_and_accept_n from row i on: sample, accept, stop at the first
      token that differs from the draft; one more token if the whole draft matched. */
  function AcceptFrom(next: Target, views: seq<Memory>, draft: seq<Token>, accepted: seq<Token>,
      i: nat): (r: seq<Token>)
    requires |views| == |draft| + 1 && i <= |draft|
    ensures 1 <= |r| <= |draft| - i + 1
    decreases |draft| - i
  {
    var id := next(views[i], accepted);
    if i < |draft| && draft[i] == id then [id] + AcceptFrom(next, views, draft, accepted + [id], i + 1) else [id]
  }

  /** One step of the acceptance loop, after the tokens ids. */
  lemma AcceptStep(next: Target, views: seq<Memory>, draft: seq<Token>, ids: seq<Token>, accepted: seq<Token>, i: nat)
    requires |views| == |draft| + 1 && i < |draft|
    ensures var id := next(views[i], accepted);
            ids + AcceptFrom(next, views, draft, accepted, i) ==
              if draft[i] == id then ids + [id] + AcceptFrom(next, views, draft, accepted + [id], i + 1) else ids + [id]
  {
    var id := next(views[i], accepted);
    Assoc(ids, [id], AcceptFrom(next, views, draft, accepted + [id], i + 1));
  }

  /** The rows of a verification batch, decoded after s. */
  ghost predicate ViewsOf(p: Params, s: Serial, draft: seq<Token>, views: seq<Memory>) {
    |views| == |draft| + 1 &&
    forall j :: 0 <= j <= |draft| ==>
      views[j] == Mirror(p.kind, s.prompt + [s.sampled] + draft[..j], s.accepted + draft[..j])
  }

  /** The last token accepted is the one sampled. */
  ghost predicate Sampled(s: Serial) {
    s.accepted != [] && Last(s.accepted) == s.sampled
  }

  lemma BatchPrefix(x: Token, draft: seq<Token>, j: nat)
    requires j <= |draft|
    ensures ([x] + draft)[..j + 1] == [x] + draft[..j]
  {}

  lemma FoldSampled(s: Serial, draft: seq<Token>)
    requires Sampled(s)
    ensures Init(s.accepted) + ([s.sampled] + draft) == s.accepted + draft
  {
    Assoc(Init(s.accepted), [s.sampled], draft);
    assert Init(s.accepted) + [s.sampled] == s.accepted;
  }

  /** Decoding [sampled] + draft after a mirrored prompt gives the rows of a verification batch. */
  lemma BatchViews(p: Params, s: Serial, draft: seq<Token>, rows: seq<Cell>, m: Memory, views: seq<Memory>)
    requires Sampled(s) && rows == RowsAt(|s.prompt|, [s.sampled] + draft) && |views| == |rows|
    requires m == AbsorbAll(Mirror(p.kind, s.prompt, Init(s.accepted)), rows)
    requires forall i :: 0 <= i < |rows| ==>
               views[i] == Visible(AbsorbAll(Mirror(p.kind, s.prompt, Init(s.accepted)), rows[..i + 1]), rows[i].pos)
    ensures m == Mirror(p.kind, s.prompt + [s.sampled] + draft, s.accepted + draft) && ViewsOf(p, s, draft, views)
  {
    var toks, folded := [s.sampled] + draft, Init(s.accepted);
    AbsorbExtendsMirror(p.kind, s.prompt, folded, toks);
    Assoc(s.prompt, [s.sampled], draft);
    FoldSampled(s, draft);
    forall j | 0 <= j <= |draft|
      ensures views[j] == Mirror(p.kind, s.prompt + [s.sampled] + draft[..j], s.accepted + draft[..j])
    {
      RowSeesItsPrefix(p.kind, s.prompt, folded, toks, j);
      BatchPrefix(s.sampled, draft, j);
      Assoc(s.prompt, [s.sampled], draft[..j]);
      FoldSampled(s, draft[..j]);
    }
  }

  /** s is i accepted draft tokens further than base. */
  ghost predicate Ahead(base: Serial, s: Serial, draft: seq<Token>, i: nat) {
    i <= |draft| && s.prompt + [s.sampled] == base.prompt + [base.sampled] + draft[..i]
        && s.accepted == base.accepted + draft[..i]
  }

  /** Serial decoding of one more token samples from row i. */
  lemma StepFromRow(next: Target, p: Params, base: Serial, s: Serial, draft: seq<Token>, views: seq<Memory>, i: nat)
    requires ValidParams(p) && ViewsOf(p, base, draft, views) && Ahead(base, s, draft, i)
    requires |base.prompt| + |draft| + 2 <= p.nCtx
    ensures var id := next(views[i], s.accepted);
            SerialStep(next, p, s) == Serial(s.prompt + [s.sampled], id, s.accepted + [id])
  {
    assert |s.prompt + [s.sampled]| == |base.prompt| + 1 + i;
  }

  lemma AheadStep(base: Serial, s: Serial, draft: seq<Token>, i: nat)
    requires Ahead(base, s, draft, i) && i < |draft|
    ensures base.prompt + [base.sampled] + draft[..i + 1] == s.prompt + [s.sampled] + [draft[i]]
    ensures base.accepted + draft[..i + 1] == s.accepted + [draft[i]]
  {
    assert draft[..i + 1] == draft[..i] + [draft[i]];
    Assoc(base.prompt + [base.sampled], draft[..i], [draft[i]]);
    Assoc(base.accepted, draft[..i], [draft[i]]);
  }

  /** ids is what serial decoding produces next from s, and the state it leaves. */
  ghost predicate Follows(next: Target, p: Params, s: Serial, ids: seq<Token>)
    requires ValidParams(p)
  {
    && ids != [] && Continues(next, p, s, ids)
    && SerialRun(next, p, s, |ids|) == Serial(s.prompt + [s.sampled] + Init(ids), Last(ids), s.accepted + ids)
  }

  lemma FollowsCons(next: Target, p: Params, s: Serial, id: Token, rest: seq<Token>)
    requires ValidParams(p) && SerialStep(next, p, s) == Serial(s.prompt + [s.sampled], id, s.accepted + [id])
    requires Follows(next, p, SerialStep(next, p, s), rest)
    ensures Follows(next, p, s, [id] + rest)
  {
    var s', ids := SerialStep(next, p, s), [id] + rest;
    forall k | 0 <= k < |ids| ensures ids[k] == SerialRun(next, p, s, k + 1).sampled {
      assert SerialRun(next, p, s, k + 1) == SerialRun(next, p, s', k);
      assert k > 0 ==> ids[k] == rest[k - 1];
    }
    assert SerialRun(next, p, s, |ids|) == SerialRun(next, p, s', |rest|);
    assert Init(ids) == [id] + Init(rest);
    Assoc(s.prompt + [s.sampled], [id], Init(rest));
    Assoc(s.accepted, [id], rest);
  }

  lemma FollowsOne(next: Target, p: Params, s: Serial, id: Token)
    requires ValidParams(p) && SerialStep(next, p, s) == Serial(s.prompt + [s.sampled], id, s.accepted + [id])
    ensures Follows(next, p, s, [id])
  {
    assert SerialRun(next, p, s, 1) == SerialRun(next, p, SerialStep(next, p, s), 0);
    assert s.prompt + [s.sampled] + Init([id]) == s.prompt + [s.sampled];
  }

  /** ids is what verifying the draft from i on returns: its tokens up to the first that the target does not
      sample, and the one sampled in its place or behind it. */
  ghost predicate Verified(ids: seq<Token>, draft: seq<Token>, i: nat) {
    && 1 <= |ids| && i + |ids| <= |draft| + 1
    && (forall k :: 0 <= k < |ids| - 1 ==> ids[k] == draft[i + k])
    && (i + |ids| <= |draft| ==> Last(ids) != draft[i + |ids| - 1])
  }

  lemma VerifiedCons(id: Token, rest: seq<Token>, draft: seq<Token>, i: nat)
    requires i < |draft| && draft[i] == id && Verified(rest, draft, i + 1)
    ensures Verified([id] + rest, draft, i)
  {
    var ids := [id] + rest;
    forall k | 0 <= k < |ids| - 1 ensures ids[k] == draft[i + k] {
      if k > 0 {
        assert rest[k - 1] == draft[i + 1 + (k - 1)];
      }
    }
  }

  /** All tokens that verification returns, but the last, come from the draft, and it stops only at a difference. */
  lemma {:induction false} AcceptedFromDraft(next: Target, draft: seq<Token>, views: seq<Memory>,
      accepted: seq<Token>, i: nat)
    requires |views| == |draft| + 1 && i <= |draft|
    ensures Verified(AcceptFrom(next, views, draft, accepted, i), draft, i)
    decreases |draft| - i
  {
    var id := next(views[i], accepted);
    if i < |draft| && draft[i] == id {
      AcceptedFromDraft(next, draft, views, accepted + [id], i + 1);
      VerifiedCons(id, AcceptFrom(next, views, draft, accepted + [id], i + 1), draft, i);
    }
  }

  /** Whatever the draft was, the tokens that verification returns are exactly the next tokens of
      serial decoding. */
  lemma {:induction false} AcceptedIsSerial(next: Target, p: Params, base: Serial, s: Serial, draft: seq<Token>,
      views: seq<Memory>, i: nat)
    requires ValidParams(p) && ViewsOf(p, base, draft, views) && Ahead(base, s, draft, i)
    requires |base.prompt| + |draft| + 2 <= p.nCtx
    ensures Follows(next, p, s, AcceptFrom(next, views, draft, s.accepted, i))
    decreases |draft| - i
  {
    var id := next(views[i], s.accepted);
    StepFromRow(next, p, base, s, draft, views, i);
    if i < |draft| && draft[i] == id {
      var s' := SerialStep(next, p, s);
      AheadStep(base, s, draft, i);
      AcceptedIsSerial(next, p, base, s', draft, views, i + 1);
      FollowsCons(next, p, s, id, AcceptFrom(next, views, draft, s'.accepted, i + 1));
    } else {
      FollowsOne(next, p, s, id);
    }
  }

  /** A draft that serial decoding would produce anyway is accepted whole. */
  lemma {:induction false} SerialDraftAccepted(next: Target, p: Params, base: Serial, s: Serial, draft: seq<Token>,
      views: seq<Memory>, i: nat)
    requires ValidParams(p) && ViewsOf(p, base, draft, views) && Ahead(base, s, draft, i)
    requires |base.prompt| + |draft| + 2 <= p.nCtx
    requires forall k :: i <= k < |draft| ==> draft[k] == SerialRun(next, p, s, k - i + 1).sampled
    ensures |AcceptFrom(next, views, draft, s.accepted, i)| == |draft| - i + 1
    decreases |draft| - i
  {
    StepFromRow(next, p, base, s, draft, views, i);
    var s' := SerialStep(next, p, s);
    if i < |draft| {
      assert SerialRun(next, p, s, 1) == SerialRun(next, p, s', 0);
      AheadStep(base, s, draft, i);
      forall k | i + 1 <= k < |draft| ensures draft[k] == SerialRun(next, p, s', k - (i + 1) + 1).sampled {
        assert SerialRun(next, p, s, k - i + 1) == SerialRun(next, p, s', k - i);
      }
      SerialDraftAccepted(next, p, base, s', draft, views, i + 1);
    }
  }
}
