/**
 The decode loop of update_slots: the batch is decoded view by view, a view for which the memory
 has no room is retried after purging an idle slot or with half the batch size.

 The results of llama_decode, of the draft model's catch-up and of post_decode are inputs; after a
 view was processed the slots may be in any state.
 */
module DecodeRetry {
  import opened Helpers

  /** What the loop knows of a slot: whether it is processing a task, and its cached prompt length. */
  datatype SlotInfo = SlotInfo(processing: bool, nTokens: nat)

  datatype View = View(off: nat, n: nat)

  datatype Exit = Completed | NoRoom | Failed

  /** The slots that try_clear_idle_slots could still purge. */
  function Purgeable(slots: seq<SlotInfo>): nat {
    if slots == [] then 0
    else (if !slots[0].processing && slots[0].nTokens > 0 then 1 else 0) + Purgeable(slots[1..])
  }

  lemma {:induction false} PurgeOne(slots: seq<SlotInfo>, i: nat)
    requires i < |slots| && !slots[i].processing && slots[i].nTokens > 0
    ensures Purgeable(slots[i := SlotInfo(false, 0)]) == Purgeable(slots) - 1
  {
    var after := slots[i := SlotInfo(false, 0)];
    if i == 0 {
      assert after[1..] == slots[1..];
    } else {
      assert after[1..] == slots[1..][i - 1 := SlotInfo(false, 0)];
      PurgeOne(slots[1..], i - 1);
    }
  }

  lemma {:induction false} NothingToPurge(slots: seq<SlotInfo>)
    requires forall i :: 0 <= i < |slots| ==> slots[i].processing || slots[i].nTokens == 0
    ensures Purgeable(slots) == 0
  {
    if slots != [] {
      NothingToPurge(slots[1..]);
    }
  }

  /** Purgeable counts the idle slots that hold tokens. */
  lemma {:induction false} PurgeableCounts(a: seq<SlotInfo>, b: seq<SlotInfo>, slot: SlotInfo)
    ensures Purgeable(a + b) == Purgeable(a) + Purgeable(b)
    ensures Purgeable([slot]) == if slot.processing || slot.nTokens == 0 then 0 else 1
    ensures Purgeable(a) > 0 <==> exists i :: 0 <= i < |a| && IsPurgeable(a[i])
  {
    assert [slot][1..] == [];
    if a == [] {
      assert a + b == b;
    } else {
      PurgeableCounts(a[1..], b, slot);
      assert (a + b)[1..] == a[1..] + b;
      if exists i :: 0 < i < |a| && IsPurgeable(a[i]) {
        var i :| 0 < i < |a| && IsPurgeable(a[i]);
        assert a[1..][i - 1] == a[i];
      }
      if exists i :: 0 <= i < |a| - 1 && IsPurgeable(a[1..][i]) {
        var i :| 0 <= i < |a| - 1 && IsPurgeable(a[1..][i]);
        assert a[i + 1] == a[1..][i];
      }
      assert a[0] == a[0] && (IsPurgeable(a[0]) ==> exists i :: 0 <= i < |a| && IsPurgeable(a[i]));
    }
  }

  predicate IsPurgeable(slot: SlotInfo) { !slot.processing && slot.nTokens > 0 }

  /** after is before but for idle slots that were emptied, which happens only in a shared memory. */
  ghost predicate Purged(before: seq<SlotInfo>, after: seq<SlotInfo>, kvUnified: bool) {
    && |after| == |before|
    && forall i :: 0 <= i < |before| ==>
         after[i] == before[i] || (kvUnified && IsPurgeable(before[i]) && after[i] == SlotInfo(false, 0))
  }

  /** i is the first slot that can be purged. */
  ghost predicate FirstPurgeable(slots: seq<SlotInfo>, i: nat) {
    i < |slots| && IsPurgeable(slots[i]) && forall j :: 0 <= j < i ==> !IsPurgeable(slots[j])
  }

  /** try_clear_idle_slots: purge the first idle slot that holds tokens, if the memory is shared. */
  method TryClearIdleSlots(slots: seq<SlotInfo>, kvUnified: bool) returns (after: seq<SlotInfo>, res: bool)
    ensures res <==> kvUnified && Purgeable(slots) > 0
    ensures res ==> exists i: nat :: FirstPurgeable(slots, i) && after == slots[i := SlotInfo(false, 0)]
    ensures res ==> Purgeable(after) == Purgeable(slots) - 1
    ensures !res ==> after == slots
    ensures Purged(slots, after, kvUnified)
  {
    after, res := slots, false;
    if !kvUnified {
      return;
    }
    for i := 0 to |slots|
      invariant after == slots && !res
      invariant forall j :: 0 <= j < i ==> !IsPurgeable(slots[j])
    {
      if slots[i].processing {
        continue;
      }
      if slots[i].nTokens > 0 {
        PurgeOne(slots, i);
        after, res := slots[i := SlotInfo(false, 0)], true;
        assert FirstPurgeable(slots, i);
        return;
      }
    }
    NothingToPurge(slots);
  }

  /** Release every processing slot; on a decode error its cached prompt is dropped as well. */
  function ReleaseAll(slots: seq<SlotInfo>, drop: bool): (r: seq<SlotInfo>)
    ensures |r| == |slots|
    ensures forall i :: 0 <= i < |r| ==> !r[i].processing
    ensures forall i :: 0 <= i < |r| ==> r[i].nTokens == if drop && slots[i].processing then 0 else slots[i].nTokens
  {
    seq(|slots|, i requires 0 <= i < |slots| =>
      if slots[i].processing && drop then SlotInfo(false, 0) else slots[i].(processing := false))
  }

  /** The views lie one after the other from lo to hi, none empty and none larger than the batch size. */
  ghost predicate Tiles(views: seq<View>, lo: nat, hi: nat, nBatch: nat) {
    if views == [] then lo == hi
    else
      var v := views[|views| - 1];
      1 <= v.n <= nBatch && v.off + v.n == hi && Tiles(views[..|views| - 1], lo, v.off, nBatch)
  }

  /** Every batch index lies in exactly one of the views. */
  lemma {:induction false} TilesPartition(views: seq<View>, lo: nat, hi: nat, nBatch: nat, i: nat)
    requires Tiles(views, lo, hi, nBatch)
    ensures lo <= hi
    ensures lo <= i < hi ==> exists k :: 0 <= k < |views| && views[k].off <= i < views[k].off + views[k].n
    ensures forall j, k :: 0 <= j < k < |views| ==> lo <= views[j].off && views[j].off + views[j].n <= views[k].off
    ensures forall k :: 0 <= k < |views| ==> lo <= views[k].off && views[k].off + views[k].n <= hi
  {
    if views != [] {
      var n := |views| - 1;
      TilesPartition(views[..n], lo, views[n].off, nBatch, i);
      if lo <= i < views[n].off {
        var k :| 0 <= k < n && views[..n][k].off <= i < views[..n][k].off + views[..n][k].n;
        assert views[k].off <= i < views[k].off + views[k].n;
      } else if lo <= i < hi {
        assert views[n].off <= i < views[n].off + views[n].n;
      }
      forall j, k | 0 <= j < k < |views| ensures lo <= views[j].off && views[j].off + views[j].n <= views[k].off {
        assert views[..n][j] == views[j];
        assert k < n ==> views[..n][k] == views[k];
      }
      forall k | 0 <= k < |views| ensures lo <= views[k].off && views[k].off + views[k].n <= hi {
        assert k < n ==> views[..n][k] == views[k];
      }
    }
  }

  /** n halved h times. */
  function Halved(n: nat, h: nat): nat {
    if h == 0 then n else Halved(n, h - 1) / 2
  }

  lemma {:induction false} HalvedPositive(n: nat, h: nat)
    ensures Halved(n, h) <= n
  {
    if h > 0 {
      HalvedPositive(n, h - 1);
    }
  }

  /** The batch size for a view that was refused c times, when these were the slots at its first try: in a shared
      memory as many refusals as there were idle slots to purge leave it as configured, every further one halves it. */
  function BatchSize(nBatchMax: nat, kvUnified: bool, tried: seq<SlotInfo>, c: nat): nat {
    Halved(nBatchMax, if !kvUnified then c else if c <= Purgeable(tried) then 0 else c - Purgeable(tried))
  }

  /** Each of the first c tries of a view was of more than one token, so that a refusal could be retried. */
  ghost predicate Retried(nBatchMax: nat, kvUnified: bool, tried: seq<SlotInfo>, c: nat) {
    forall i: nat :: i < c ==> BatchSize(nBatchMax, kvUnified, tried, i) >= 2
  }

  /** No room for the view: purge an idle slot, or else halve the batch size. */
  method Retry(slots: seq<SlotInfo>, kvUnified: bool, nBatch: nat) returns (after: seq<SlotInfo>, n: nat)
    requires nBatch >= 2
    ensures Purged(slots, after, kvUnified)
    ensures if kvUnified && Purgeable(slots) > 0 then n == nBatch && Purgeable(after) == Purgeable(slots) - 1
            else n == nBatch / 2 && after == slots
  {
    var cleared;
    n := nBatch;
    after, cleared := TryClearIdleSlots(slots, kvUnified);
    if !cleared {
      n := n / 2;
    }
  }

  lemma TilesAppend(views: seq<View>, lo: nat, hi: nat, n: nat, nBatch: nat)
    requires Tiles(views, lo, hi, nBatch) && 1 <= n <= nBatch
    ensures Tiles(views + [View(hi, n)], lo, hi + n, nBatch)
  {
    assert (views + [View(hi, n)])[..|views|] == views;
  }

  /** What the calls of llama_decode return (0, 1 or a negative error), whether the draft model follows, whether
      post_decode succeeds, and the slots after a view, all by the number of the call. */
  datatype Answers = Answers(ret: nat -> int, catchUp: nat -> bool, post: nat -> bool, later: nat -> seq<SlotInfo>)

  /** The number of the first call for view j, if the views before it were decoded by the calls at. */
  function FirstCall(at: seq<nat>, j: nat): nat
    requires j <= |at|
  {
    if j == 0 then 0 else at[j - 1] + 1
  }

  /** The slots when view j was first tried. */
  function SlotsAt(a: Answers, slots0: seq<SlotInfo>, at: seq<nat>, j: nat): seq<SlotInfo>
    requires j <= |at|
  {
    if j == 0 then slots0 else a.later(at[j - 1])
  }

  /** View j was decoded by call at[j]; all calls for it before that were refused for lack of room and retried, and
      it is as large as these refusals left the batch size. */
  ghost predicate DecodedBy(a: Answers, size: nat, nBatchMax: nat, kvUnified: bool, slots0: seq<SlotInfo>,
                            views: seq<View>, at: seq<nat>, j: nat)
    requires |at| == |views| && j < |views|
  {
    var first, tried := FirstCall(at, j), SlotsAt(a, slots0, at, j);
    && first <= at[j] && a.ret(at[j]) == 0 && a.catchUp(at[j])
    && (forall k: nat :: first <= k < at[j] ==> a.ret(k) == 1)
    && Retried(nBatchMax, kvUnified, tried, at[j] - first)
    && views[j].off <= size
    && views[j].n == Min(BatchSize(nBatchMax, kvUnified, tried, at[j] - first), size - views[j].off)
  }

  /** The views decoded so far: up to end, one after the other, each by a call of its own. */
  ghost predicate DecodedUpTo(a: Answers, size: nat, nBatchMax: nat, kvUnified: bool, slots0: seq<SlotInfo>,
                              views: seq<View>, at: seq<nat>, end: nat)
  {
    && end <= size && Tiles(views, 0, end, nBatchMax) && |at| == |views|
    && forall j: nat :: j < |views| ==> DecodedBy(a, size, nBatchMax, kvUnified, slots0, views, at, j)
  }

  lemma DecodedMore(a: Answers, size: nat, nBatchMax: nat, kvUnified: bool, slots0: seq<SlotInfo>,
                    views: seq<View>, at: seq<nat>, end: nat, n: nat, call: nat)
    requires DecodedUpTo(a, size, nBatchMax, kvUnified, slots0, views, at, end)
    requires 1 <= n <= nBatchMax && end + n <= size
    requires DecodedBy(a, size, nBatchMax, kvUnified, slots0, views + [View(end, n)], at + [call], |views|)
    ensures DecodedUpTo(a, size, nBatchMax, kvUnified, slots0, views + [View(end, n)], at + [call], end + n)
  {
    var views', at' := views + [View(end, n)], at + [call];
    TilesAppend(views, 0, end, n, nBatchMax);
    forall j: nat | j < |views| ensures DecodedBy(a, size, nBatchMax, kvUnified, slots0, views', at', j) {
      assert DecodedBy(a, size, nBatchMax, kvUnified, slots0, views, at, j);
    }
  }

  /** post_decode succeeded for the first n views. */
  ghost predicate Posted(a: Answers, at: seq<nat>, n: nat) {
    forall j :: 0 <= j < n && j < |at| ==> a.post(at[j])
  }

  /** While a view is tried for the c-th time: the calls for it so far were refused, and the slots and the batch size
      are what these refusals left. */
  ghost predicate Trying(a: Answers, nBatchMax: nat, kvUnified: bool, tried: seq<SlotInfo>, first: nat, c: nat,
                         slots: seq<SlotInfo>, nBatch: nat)
  {
    && (forall k: nat :: first <= k < first + c ==> a.ret(k) == 1)
    && Retried(nBatchMax, kvUnified, tried, c) && nBatch == BatchSize(nBatchMax, kvUnified, tried, c)
    && Purged(tried, slots, kvUnified)
    && Purgeable(slots) == if !kvUnified then Purgeable(tried)
        else if c <= Purgeable(tried) then Purgeable(tried) - c else 0
  }

  /** One more refusal of a view of more than one token, and what Retry made of it. */
  lemma RefusedOnce(a: Answers, nBatchMax: nat, kvUnified: bool, tried: seq<SlotInfo>, first: nat, c: nat,
                    slots: seq<SlotInfo>, nBatch: nat, after: seq<SlotInfo>, n: nat)
    requires Trying(a, nBatchMax, kvUnified, tried, first, c, slots, nBatch) && nBatch >= 2 && a.ret(first + c) == 1
    requires Purged(slots, after, kvUnified)
    requires if kvUnified && Purgeable(slots) > 0 then n == nBatch && Purgeable(after) == Purgeable(slots) - 1
             else n == nBatch / 2 && after == slots
    ensures Trying(a, nBatchMax, kvUnified, tried, first, c + 1, after, n)
  {}

  /** The loop broke off in call total - 1, which was for the view behind end: all calls for it before that were
      refused, and left these slots. */
  ghost predicate BrokeOff(a: Answers, size: nat, nBatchMax: nat, kvUnified: bool, slots0: seq<SlotInfo>,
                           at: seq<nat>, end: nat, total: nat, last: seq<SlotInfo>)
  {
    && end < size && Posted(a, at, |at|) && total > FirstCall(at, |at|)
    && var (tried, c) := (SlotsAt(a, slots0, at, |at|), total - 1 - FirstCall(at, |at|));
       Trying(a, nBatchMax, kvUnified, tried, FirstCall(at, |at|), c, last, BatchSize(nBatchMax, kvUnified, tried, c))
  }

  /** Why it broke off there. No room: the view was refused as a single token. Failure: by the decoder or by the draft
      model. The slots that were processing are released, and dropped unless it was the draft model. */
  ghost predicate BreaksWith(a: Answers, nBatchMax: nat, kvUnified: bool, slots0: seq<SlotInfo>,
                             at: seq<nat>, total: nat, last: seq<SlotInfo>, exit: Exit, slots: seq<SlotInfo>)
    requires total > FirstCall(at, |at|)
  {
    var r := a.ret(total - 1);
    && slots == ReleaseAll(last, r != 0)
    && if exit == NoRoom then
         r == 1 && BatchSize(nBatchMax, kvUnified, SlotsAt(a, slots0, at, |at|), total - 1 - FirstCall(at, |at|)) == 1
       else
         exit == Failed && (r <= -1 || (r == 0 && !a.catchUp(total - 1)))
  }

  /** post_decode failed on the last view. */
  ghost predicate PostFails(a: Answers, kvUnified: bool, slots0: seq<SlotInfo>,
                            at: seq<nat>, total: nat, last: seq<SlotInfo>, exit: Exit, slots: seq<SlotInfo>)
  {
    && exit == Failed && |at| > 0 && total == at[|at| - 1] + 1
    && Posted(a, at, |at| - 1) && !a.post(total - 1)
    && Purged(SlotsAt(a, slots0, at, |at| - 1), last, kvUnified) && slots == ReleaseAll(last, false)
  }

  /** The loop at its head, having made total calls, the last c of them refused for the view at off. */
  ghost predicate Underway(a: Answers, size: nat, nBatchMax: nat, kvUnified: bool, slots0: seq<SlotInfo>,
                           views: seq<View>, at: seq<nat>, off: nat, total: nat, c: nat, slots: seq<SlotInfo>,
                               nBatch: nat)
  {
    && DecodedUpTo(a, size, nBatchMax, kvUnified, slots0, views, at, off) && Posted(a, at, |at|)
    && total == FirstCall(at, |at|) + c && 1 <= nBatch <= nBatchMax
    && Trying(a, nBatchMax, kvUnified, SlotsAt(a, slots0, at, |at|), FirstCall(at, |at|), c, slots, nBatch)
    && (if c > 0 then off < size else slots == SlotsAt(a, slots0, at, |at|))
  }

  lemma Starts(a: Answers, size: nat, nBatchMax: nat, kvUnified: bool, slots0: seq<SlotInfo>)
    requires nBatchMax >= 1
    ensures Underway(a, size, nBatchMax, kvUnified, slots0, [], [], 0, 0, 0, slots0, nBatchMax)
  {}

  lemma Refused(a: Answers, size: nat, nBatchMax: nat, kvUnified: bool, slots0: seq<SlotInfo>,
                views: seq<View>, at: seq<nat>, off: nat, total: nat, c: nat, slots: seq<SlotInfo>, nBatch: nat,
                after: seq<SlotInfo>, n: nat)
    requires Underway(a, size, nBatchMax, kvUnified, slots0, views, at, off, total, c, slots, nBatch) && off < size
    requires nBatch >= 2 && a.ret(total) == 1 && Purged(slots, after, kvUnified)
    requires if kvUnified && Purgeable(slots) > 0 then n == nBatch && Purgeable(after) == Purgeable(slots) - 1
             else n == nBatch / 2 && after == slots
    ensures Underway(a, size, nBatchMax, kvUnified, slots0, views, at, off, total + 1, c + 1, after, n)
  {
    var tried, first := SlotsAt(a, slots0, at, |at|), FirstCall(at, |at|);
    RefusedOnce(a, nBatchMax, kvUnified, tried, first, c, slots, nBatch, after, n);
  }

  /** The view is decoded; whatever post_decode makes of it, it counts. */
  lemma Accepted(a: Answers, size: nat, nBatchMax: nat, kvUnified: bool, slots0: seq<SlotInfo>,
                 views: seq<View>, at: seq<nat>, off: nat, total: nat, c: nat, slots: seq<SlotInfo>, nBatch: nat,
                     n: nat)
    requires Underway(a, size, nBatchMax, kvUnified, slots0, views, at, off, total, c, slots, nBatch) && off < size
    requires n == Min(nBatch, size - off) && a.ret(total) == 0 && a.catchUp(total)
    ensures DecodedUpTo(a, size, nBatchMax, kvUnified, slots0, views + [View(off, n)], at + [total], off + n)
    ensures Posted(a, at + [total], |at|) && Purged(SlotsAt(a, slots0, at + [total], |at|), slots, kvUnified)
    ensures a.post(total) ==> Underway(a, size, nBatchMax, kvUnified, slots0, views + [View(off, n)], at + [total],
                                       off + n, total + 1, 0, a.later(total), nBatchMax)
  {
    var at' := at + [total];
    assert SlotsAt(a, slots0, at', |at|) == SlotsAt(a, slots0, at, |at|) && FirstCall(at', |at|) == FirstCall(at, |at|);
    DecodedMore(a, size, nBatchMax, kvUnified, slots0, views, at, off, n, total);
  }

  lemma Breaks(a: Answers, size: nat, nBatchMax: nat, kvUnified: bool, slots0: seq<SlotInfo>,
               views: seq<View>, at: seq<nat>, off: nat, total: nat, c: nat, slots: seq<SlotInfo>, nBatch: nat,
                   exit: Exit)
    requires Underway(a, size, nBatchMax, kvUnified, slots0, views, at, off, total, c, slots, nBatch) && off < size
    requires if exit == NoRoom then a.ret(total) == 1 && nBatch == 1
             else exit == Failed && (a.ret(total) <= -1 || (a.ret(total) == 0 && !a.catchUp(total)))
    ensures BrokeOff(a, size, nBatchMax, kvUnified, slots0, at, off, total + 1, slots)
    ensures BreaksWith(a, nBatchMax, kvUnified, slots0, at, total + 1, slots, exit,
            ReleaseAll(slots, a.ret(total) != 0))
  {}

  /** The loop. end is how far it got, at are the calls that decoded the views, total is the number of calls, and last
      are the slots when the loop broke off. */
  method DecodeBatch(size: nat, nBatchMax: nat, kvUnified: bool, slots0: seq<SlotInfo>, a: Answers)
      returns (views: seq<View>, exit: Exit, slots: seq<SlotInfo>,
               ghost end: nat, ghost at: seq<nat>, ghost total: nat, ghost last: seq<SlotInfo>)
    requires nBatchMax >= 1 && forall k :: a.ret(k) <= 1
    // the views follow each other from the start, to the end on normal exit; any other exit leaves no slot processing
    ensures exists n: nat :: n <= size && Tiles(views, 0, n, nBatchMax) && (exit == Completed ==> n == size)
    ensures exit != Completed ==> forall i :: 0 <= i < |slots| ==> !slots[i].processing
    // and each of them was decoded by a call of its own
    ensures DecodedUpTo(a, size, nBatchMax, kvUnified, slots0, views, at, end)
    // normal exit: the whole batch, no call beside these, and the slots are as the last view left them
    ensures exit == Completed ==> end == size && Posted(a, at, |at|) && total == FirstCall(at, |at|)
    ensures exit == Completed ==> slots == SlotsAt(a, slots0, at, |at|)
    ensures exit != Completed ==>
              || (&& BrokeOff(a, size, nBatchMax, kvUnified, slots0, at, end, total, last)
                  && BreaksWith(a, nBatchMax, kvUnified, slots0, at, total, last, exit, slots))
              || PostFails(a, kvUnified, slots0, at, total, last, exit, slots)
  {
    slots, views, exit, last, at, total := slots0, [], Completed, [], [], 0;
    var off, offNext, nBatch, calls := 0, 0, nBatchMax, 0;
    ghost var c: nat := 0;
    Starts(a, size, nBatchMax, kvUnified, slots0);
    while off < size
      invariant offNext == off && calls == total && nBatch >= 1
      invariant Underway(a, size, nBatchMax, kvUnified, slots0, views, at, off, total, c, slots, nBatch)
      decreases size - off, Purgeable(slots), nBatch
    {
      var nTokens := Min(nBatch, size - off);
      // what get_view asserts
      assert 0 <= off < size && nTokens > 0 && off + nTokens <= size;
      var view := View(off, nTokens);
      var r := a.ret(calls);
      ghost var k, slots', nBatch' := total, slots, nBatch;
      calls, total := calls + 1, total + 1;
      if r != 0 {
        if (nBatch == 1 && r == 1) || r <= -1 {
          last, end := slots, off;
          slots := ReleaseAll(slots, true);
          exit := if r == 1 then NoRoom else Failed;
          Breaks(a, size, nBatchMax, kvUnified, slots0, views, at, off, k, c, slots', nBatch', exit);
          return;
        }
        slots, nBatch := Retry(slots, kvUnified, nBatch);
        Refused(a, size, nBatchMax, kvUnified, slots0, views, at, off, k, c, slots', nBatch', slots, nBatch);
        c := c + 1;
        off := offNext;
        continue;
      }
      if !a.catchUp(calls - 1) {
        last, end := slots, off;
        slots := ReleaseAll(slots, false);
        exit := Failed;
        Breaks(a, size, nBatchMax, kvUnified, slots0, views, at, off, k, c, slots', nBatch', exit);
        return;
      }
      Accepted(a, size, nBatchMax, kvUnified, slots0, views, at, off, k, c, slots', nBatch', nTokens);
      offNext := off + nTokens;
      nBatch := nBatchMax;
      views, at := views + [view], at + [k];
      if !a.post(calls - 1) {
        last, end := slots, offNext;
        slots := ReleaseAll(slots, false);
        exit := Failed;
        return;
      }
      slots, c := a.later(calls - 1), 0;
      off := offNext;
    }
    end := off;
  }

  /** When "context size exceeded" is reported in a shared memory, no idle slot is left to purge if and only if there
      was none when the view was first tried, or the configured batch size leaves something to retry with. */
  lemma NothingLeftIff(a: Answers, size: nat, nBatchMax: nat, slots0: seq<SlotInfo>,
                       at: seq<nat>, end: nat, total: nat, last: seq<SlotInfo>, slots: seq<SlotInfo>)
    requires nBatchMax >= 1 && BrokeOff(a, size, nBatchMax, true, slots0, at, end, total, last)
    requires BreaksWith(a, nBatchMax, true, slots0, at, total, last, NoRoom, slots)
    ensures Purgeable(last) == 0 <==> nBatchMax >= 2 || Purgeable(SlotsAt(a, slots0, at, |at|)) == 0
  {
    GivingUp(nBatchMax, SlotsAt(a, slots0, at, |at|), total - 1 - FirstCall(at, |at|));
  }

  /** In a shared memory, a batch size that came down to 1 from more has no idle slot left to purge. */
  lemma GivingUp(nBatchMax: nat, tried: seq<SlotInfo>, c: nat)
    requires BatchSize(nBatchMax, true, tried, c) == 1 && Retried(nBatchMax, true, tried, c)
    ensures nBatchMax >= 2 ==> c > Purgeable(tried)
    ensures nBatchMax == 1 ==> c == 0
  {
    assert nBatchMax == 1 && c > 0 ==> BatchSize(nBatchMax, true, tried, 0) == 1;
  }

  /** With a configured batch size of 1 a first refusal ends the loop, however many idle slots there are to purge. */
  method GivesUpAtOnce(size: nat, slots0: seq<SlotInfo>, a: Answers)
      returns (views: seq<View>, exit: Exit, slots: seq<SlotInfo>, ghost last: seq<SlotInfo>)
    requires size > 0 && a.ret(0) == 1 && forall k :: a.ret(k) <= 1
    ensures views == [] && exit == NoRoom && last == slots0 && slots == ReleaseAll(slots0, true)
  {
    ghost var end, at, total;
    views, exit, slots, end, at, total, last := DecodeBatch(size, 1, true, slots0, a);
    assert BatchSize(1, true, slots0, 0) == 1;
    assert views != [] ==> DecodedBy(a, size, 1, true, slots0, views, at, 0);
    SamePurged(slots0, last, true);
  }

  /** Slots of which as many can be purged as before were not purged at all. */
  lemma {:induction false} SamePurged(before: seq<SlotInfo>, after: seq<SlotInfo>, kvUnified: bool)
    requires Purged(before, after, kvUnified)
    ensures Purgeable(after) <= Purgeable(before) && (Purgeable(after) == Purgeable(before) ==> after == before)
  {
    if before != [] {
      assert forall i :: 0 <= i < |before| - 1 ==> before[1..][i] == before[i + 1] && after[1..][i] == after[i + 1];
      SamePurged(before[1..], after[1..], kvUnified);
      assert before == [before[0]] + before[1..] && after == [after[0]] + after[1..];
    }
  }

  /** Such as this one: one idle slot with five cached tokens stays as it is while the batch is given up. */
  method GivesUpWithAnIdleSlot() returns (exit: Exit, slots: seq<SlotInfo>)
    ensures exit == NoRoom && slots == [SlotInfo(false, 5)] && Purgeable(slots) == 1
  {
    var idle := [SlotInfo(false, 5)];
    var views;
    ghost var last;
    views, exit, slots, last := GivesUpAtOnce(1, idle, Answers(k => 1, k => true, k => true, k => idle));
    assert slots == idle;
    assert Purgeable(idle) == 1 + Purgeable([]);
  }
}
