/**
 The admission skeleton of the gateway's inference: a local flag acquired, set at the first or at the second
 call of acquire_slot, and a finally block that releases if the flag is set. Every await may fail or be
 cancelled, also the one inside acquire_slot after a grant; the steps of any number of inferences interleave
 with each other and with draining.
 */
module Inference {
  import opened Helpers
  import opened SlotQueue

  /** Where an inference is suspended: reading the body, waiting in acquire_slot, waiting for the backend to be
      ready, talking to it; or it has left its finally block. */
  datatype Place = AtBody | AtSlot | AtReady | AtUpstream | Finished

  /** An inference; call is the one of acquire_slot that it made. */
  datatype Inference = Inference(consumer: bool, place: Place, acquired: bool, call: Option<nat>)

  /** The queue, the inferences, and the calls for which release_slot has run, in order. */
  datatype System = System(queue: State, infs: seq<Inference>, released: seq<nat>)

  const START := System(INITIAL, [], [])

  // ---- the steps between two awaits

  /** The release_slot that a step of the queue runs. */
  function Releases(s: State, e: SlotQueue.Event): seq<nat>
    requires Enabled(s, e)
  {
    match e
    case Resumes(i) => if s.calls[i] == Waiting(Granted) && s.draining then [i] else []
    case Expires(i) => if s.calls[i] == Waiting(Granted) then [i] else []
    case Finishes(i) => [i]
    case _ => []
  }

  function InQueue(c: Config, y: System, e: SlotQueue.Event): System
    requires Below(y.queue.waiters, |y.queue.calls|) && Enabled(y.queue, e)
  {
    y.(queue := Step(c, y.queue, e), released := y.released + Releases(y.queue, e))
  }

  function Put(y: System, r: nat, f: Inference): System
    requires r < |y.infs|
  {
    y.(infs := y.infs[r := f])
  }

  /** What the finally block needs: a slot to release if it thinks that it acquired one. */
  predicate MayLeave(y: System, r: nat) {
    && r < |y.infs| && Below(y.queue.waiters, |y.queue.calls|)
    && (y.infs[r].acquired ==> y.infs[r].call.Some? && Enabled(y.queue, Finishes(y.infs[r].call.value)))
  }

  /** Any way out: the finally block. */
  function Leave(c: Config, y: System, r: nat): System
    requires MayLeave(y, r)
  {
    var f := y.infs[r];
    Put(if f.acquired then InQueue(c, y, Finishes(f.call.value)) else y, r, f.(place := Finished))
  }

  /** acquired = await acquire_slot(), up to its await. Refused at once, it answers 429. */
  function Acquire(c: Config, y: System, r: nat): System
    requires r < |y.infs| && Below(y.queue.waiters, |y.queue.calls|)
  {
    var i, z := |y.queue.calls|, InQueue(c, y, Arrives);
    var f := y.infs[r].(call := Some(i));
    match z.queue.calls[i]
    case Holding => Put(z, r, f.(place := AtReady, acquired := true))
    case Waiting(_) => Put(z, r, f.(place := AtSlot))
    case Over => Put(z, r, f.(place := Finished, acquired := false))
  }

  /** The second point: if not acquired, acquire. */
  function AcquireUnlessHeld(c: Config, y: System, r: nat): System
    requires r < |y.infs| && Below(y.queue.waiters, |y.queue.calls|)
  {
    if y.infs[r].acquired then Put(y, r, y.infs[r].(place := AtUpstream)) else Acquire(c, y, r)
  }

  /** The value that acquire_slot returned after its await. */
  function Assign(y: System, r: nat, ok: bool): System
    requires r < |y.infs|
  {
    Put(y, r, y.infs[r].(acquired := ok, place := if ok then AtReady else Finished))
  }

  datatype Event =
    | Begins(consumer: bool)
    | BodyRead(r: nat, ok: bool)        // not ok: a bad body, a refused model, or cancelled
    | SlotDecided(r: nat)               // the queued call was granted or refused
    | SlotLost(r: nat)                  // its wait timed out or was cancelled
    | ReadyDone(r: nat, ok: bool)       // not ok: not ready, route or model refused, no memory, or cancelled
    | UpstreamDone(r: nat)              // answered, failed or cancelled
    | Drained(value: bool)

  predicate Possible(y: System, e: Event) {
    && Below(y.queue.waiters, |y.queue.calls|)
    && match e
       case Begins(_) => true
       case BodyRead(r, _) => r < |y.infs| && y.infs[r].place == AtBody && !y.infs[r].acquired
       case SlotDecided(r) =>
         && r < |y.infs| && y.infs[r].place == AtSlot && y.infs[r].call.Some?
         && Enabled(y.queue, Resumes(y.infs[r].call.value))
       case SlotLost(r) =>
         && r < |y.infs| && y.infs[r].place == AtSlot && y.infs[r].call.Some?
         && Enabled(y.queue, Expires(y.infs[r].call.value))
       case ReadyDone(r, _) => r < |y.infs| && y.infs[r].place == AtReady && MayLeave(y, r)
       case UpstreamDone(r) => r < |y.infs| && y.infs[r].place == AtUpstream && MayLeave(y, r)
       case Drained(_) => true
  }

  function Next(c: Config, y: System, e: Event): System
    requires Possible(y, e)
  {
    match e
    case Begins(consumer) => y.(infs := y.infs + [Inference(consumer, AtBody, false, None)])
    case BodyRead(r, ok) =>
      if !ok then Leave(c, y, r)
      else if y.infs[r].consumer then Acquire(c, y, r)
      else AcquireUnlessHeld(c, y, r)
    case SlotDecided(r) =>
      var i := y.infs[r].call.value;
      var z := InQueue(c, y, Resumes(i));
      Assign(z, r, i < |z.queue.calls| && z.queue.calls[i] == Holding)
    case SlotLost(r) => Assign(InQueue(c, y, Expires(y.infs[r].call.value)), r, false)
    case ReadyDone(r, ok) =>
      if !ok then Leave(c, y, r)
      else if y.infs[r].consumer then AcquireUnlessHeld(c, y, r)
      else Put(y, r, y.infs[r].(place := AtUpstream))
    case UpstreamDone(r) => Leave(c, y, r)
    case Drained(value) => InQueue(c, y, Drains(value))
  }

  // ---- the ledger of the queue

  ghost predicate Once(q: seq<nat>) {
    forall a, b :: 0 <= a < b < |q| ==> q[a] != q[b]
  }

  /** Every admission is released at most once, and exactly when its call is over; active is the difference. */
  ghost predicate Ledger(s: State, released: seq<nat>) {
    && s.active + |released| == |s.admitted|
    && Once(released)
    && (forall i: nat :: i in released <==> i in s.admitted && i < |s.calls| && s.calls[i] == Over)
    && (forall i: nat :: i in s.admitted ==>
          i < |s.calls| && s.calls[i] != Waiting(Pending) && s.calls[i] != Waiting(Refused))
  }

  /** What a step of the queue may do to calls other than its own. */
  ghost predicate Spares(before: Call, after: Call) {
    after == before || (before == Waiting(Pending) && (after == Waiting(Granted) || after == Waiting(Refused)))
  }

  lemma {:induction false} HandOffEffect(c: Config, s: State)
    requires Below(s.waiters, |s.calls|)
    ensures var t := HandOff(c, s);
            && |t.calls| == |s.calls| && t.active - s.active == |t.admitted| - |s.admitted|
            && (forall i: nat :: i < |s.calls| ==>
                  t.calls[i] == s.calls[i] || (s.calls[i] == Waiting(Pending) && t.calls[i] == Waiting(Granted)))
            && (forall i: nat :: i in t.admitted <==>
                  || i in s.admitted
                  || (i < |s.calls| && s.calls[i] == Waiting(Pending) && t.calls[i] == Waiting(Granted)))
    decreases |s.waiters|
  {
    if s.waiters != [] && !s.draining && s.active < c.concurrency {
      var k := s.waiters[0];
      var t := s.(waiters := s.waiters[1..]);
      HandOffEffect(c, if s.calls[k] == Waiting(Pending) then
                         t.(active := s.active + 1, calls := s.calls[k := Waiting(Granted)],
                             admitted := s.admitted + [k])
                       else t);
    }
  }

  lemma OnceMore(q: seq<nat>, i: nat)
    requires Once(q) && i !in q
    ensures Once(q + [i])
  {}

  /** Giving back an owned slot. */
  lemma ReleaseLedger(c: Config, s: State, released: seq<nat>, i: nat)
    requires Inv(c, s) && Ledger(s, released) && i in Owners(s.calls)
    ensures var over := s.(calls := s.calls[i := Over]);
            && Below(over.waiters, |over.calls|) && Ledger(Release(c, over), released + [i])
            && |Release(c, over).calls| == |s.calls| && Release(c, over).calls[i] == Over
            && forall j: nat :: j < |s.calls| && j != i ==> Spares(s.calls[j], Release(c, over).calls[j])
  {
    BelowConcat(s.admitted, s.waiters, |s.calls|);
    OnceMore(released, i);
    HandOffEffect(c, s.(calls := s.calls[i := Over], active := s.active - 1));
  }

  /** The call that an event of the queue is about; a new call has the next number. */
  function About(s: State, e: SlotQueue.Event): nat {
    match e
    case Arrives => |s.calls|
    case Resumes(i) => i
    case Expires(i) => i
    case Finishes(i) => i
    case Drains(_) => |s.calls|
  }

  ghost predicate OthersSpared(s: State, e: SlotQueue.Event, t: State) {
    |s.calls| <= |t.calls| && forall j: nat :: j < |s.calls| && j != About(s, e) ==> Spares(s.calls[j], t.calls[j])
  }

  lemma QueueLedger(c: Config, s: State, released: seq<nat>, e: SlotQueue.Event)
    requires Inv(c, s) && Ledger(s, released) && Enabled(s, e)
    ensures Below(s.waiters, |s.calls|) && Inv(c, Step(c, s, e)) && Ledger(Step(c, s, e), released + Releases(s, e))
    ensures OthersSpared(s, e, Step(c, s, e))
  {
    StepKeeps(c, s, e);
    BelowConcat(s.admitted, s.waiters, |s.calls|);
    match e {
      case Arrives => ArriveLedger(c, s, released);
      case Resumes(i) =>
        if s.calls[i] == Waiting(Granted) && s.draining {
          ReleaseLedger(c, s, released, i);
        } else {
          SettleLedger(s, released, i, s.waiters);
          assert released + [] == released;
        }
      case Expires(i) =>
        if s.calls[i] == Waiting(Granted) {
          ReleaseLedger(c, s, released, i);
        } else {
          SettleLedger(s, released, i, Without(s.waiters, i));
          assert released + [] == released;
        }
      case Finishes(i) => ReleaseLedger(c, s, released, i);
      case Drains(value) =>
        RefuseAllSpec(s.waiters, s.calls);
        assert released + [] == released;
    }
  }

  lemma ArriveLedger(c: Config, s: State, released: seq<nat>)
    requires Inv(c, s) && Ledger(s, released)
    ensures Ledger(Arrive(c, s), released + []) && OthersSpared(s, Arrives, Arrive(c, s))
  {
    BelowConcat(s.admitted, s.waiters, |s.calls|);
    assert released + [] == released;
    forall i: nat | i in s.admitted ensures i < |s.calls| {}
  }

  /** A call becomes a holder, or ends without ever having been admitted. */
  lemma SettleLedger(s: State, released: seq<nat>, i: nat, q: seq<nat>)
    requires Ledger(s, released) && i < |s.calls| && s.calls[i].Waiting?
    ensures s.calls[i] == Waiting(Granted) ==> Ledger(s.(calls := s.calls[i := Holding]), released)
    ensures s.calls[i] != Waiting(Granted) ==> Ledger(s.(calls := s.calls[i := Over], waiters := q), released)
  {
    if s.calls[i] != Waiting(Granted) {
      var future := s.calls[i].future;
      assert s.calls[i] == Waiting(future) && (future == Pending || future == Refused);
      assert i !in s.admitted;
    }
  }

  // ---- the invariant

  /** What an inference believes about its call is true. */
  ghost predicate Truthful(y: System, r: nat)
    requires r < |y.infs|
  {
    var f, calls := y.infs[r], y.queue.calls;
    && (f.call.Some? ==> f.call.value < |calls|)
    && match f.place
       case AtBody => f.call == None && !f.acquired
       case AtSlot => f.call.Some? && calls[f.call.value].Waiting? && !f.acquired
       case AtReady => f.call.Some? && calls[f.call.value] == Holding && f.acquired
       case AtUpstream => f.call.Some? && calls[f.call.value] == Holding && f.acquired
       case Finished => f.call.Some? ==> calls[f.call.value] == Over
  }

  ghost predicate Made(infs: seq<Inference>, i: nat) {
    exists r :: 0 <= r < |infs| && infs[r].call == Some(i)
  }

  /** Every call was made by exactly one inference. */
  ghost predicate OneEach(y: System) {
    && (forall r, u :: 0 <= r < u < |y.infs| && y.infs[r].call.Some? ==> y.infs[r].call != y.infs[u].call)
    && (forall i: nat :: i < |y.queue.calls| ==> Made(y.infs, i))
  }

  ghost predicate SystemInv(c: Config, y: System) {
    && Inv(c, y.queue) && Ledger(y.queue, y.released) && OneEach(y)
    && forall r: nat :: r < |y.infs| ==> Truthful(y, r)
  }

  /** A step of the queue about the call of inference r, after which r stands as f says. */
  lemma OneMoves(c: Config, y: System, e: SlotQueue.Event, r: nat, f: Inference)
    requires SystemInv(c, y) && Enabled(y.queue, e) && r < |y.infs|
    requires f.call == Some(About(y.queue, e)) && (y.infs[r].call == f.call || (y.infs[r].call == None && e == Arrives))
    requires Below(y.queue.waiters, |y.queue.calls|)
    requires Truthful(Put(InQueue(c, y, e), r, f), r)
    ensures SystemInv(c, Put(InQueue(c, y, e), r, f))
  {
    var z := Put(InQueue(c, y, e), r, f);
    QueueLedger(c, y.queue, y.released, e);
    StepLength(c, y.queue, e);
    forall u: nat | u < |z.infs| && u != r ensures Truthful(z, u) && y.infs[u].call != f.call {
      assert Truthful(y, u);
    }
    forall i: nat | i < |z.queue.calls| ensures Made(z.infs, i) {
      if Some(i) == f.call {
        assert z.infs[r].call == Some(i);
      } else {
        assert Made(y.infs, i);
        var u :| 0 <= u < |y.infs| && y.infs[u].call == Some(i);
        assert z.infs[u].call == Some(i);
      }
    }
  }

  lemma StepLength(c: Config, s: State, e: SlotQueue.Event)
    requires Inv(c, s) && Enabled(s, e) && Below(s.waiters, |s.calls|)
    ensures |Step(c, s, e).calls| == |s.calls| + if e == Arrives then 1 else 0
  {
    match e {
      case Arrives =>
      case Resumes(i) => HandOffEffect(c, s.(calls := s.calls[i := Over], active := s.active - 1));
      case Expires(i) => HandOffEffect(c, s.(calls := s.calls[i := Over], active := s.active - 1));
      case Finishes(i) => HandOffEffect(c, s.(calls := s.calls[i := Over], active := s.active - 1));
      case Drains(value) =>
    }
  }

  /** An inference moves without the queue. */
  lemma StaysInQueue(c: Config, y: System, r: nat, f: Inference)
    requires SystemInv(c, y) && r < |y.infs| && f.call == y.infs[r].call && Truthful(Put(y, r, f), r)
    ensures SystemInv(c, Put(y, r, f))
  {
    var z := Put(y, r, f);
    forall u: nat | u < |z.infs| ensures Truthful(z, u) {
      assert Truthful(y, u);
    }
    forall i: nat | i < |z.queue.calls| ensures Made(z.infs, i) {
      assert Made(y.infs, i);
      var u :| 0 <= u < |y.infs| && y.infs[u].call == Some(i);
      assert z.infs[u].call == Some(i);
    }
  }

  /** The finally block: what it releases is what this inference holds, and afterwards it holds nothing. */
  lemma LeaveKeeps(c: Config, y: System, r: nat)
    requires SystemInv(c, y) && r < |y.infs| && y.infs[r].place in {AtBody, AtReady, AtUpstream}
    ensures MayLeave(y, r) && SystemInv(c, Leave(c, y, r))
  {
    var f := y.infs[r];
    assert Truthful(y, r);
    BelowConcat(y.queue.admitted, y.queue.waiters, |y.queue.calls|);
    if f.acquired {
      ReleaseLedger(c, y.queue, y.released, f.call.value);
      OneMoves(c, y, Finishes(f.call.value), r, f.(place := Finished));
    } else {
      StaysInQueue(c, y, r, f.(place := Finished));
    }
  }

  lemma AcquireKeeps(c: Config, y: System, r: nat)
    requires SystemInv(c, y) && r < |y.infs| && y.infs[r].place == AtBody
    ensures Below(y.queue.waiters, |y.queue.calls|) && SystemInv(c, Acquire(c, y, r))
  {
    var i, f := |y.queue.calls|, y.infs[r].(call := Some(|y.queue.calls|));
    assert Truthful(y, r);
    BelowConcat(y.queue.admitted, y.queue.waiters, |y.queue.calls|);
    match Step(c, y.queue, Arrives).calls[i] {
      case Holding => OneMoves(c, y, Arrives, r, f.(place := AtReady, acquired := true));
      case Waiting(_) => OneMoves(c, y, Arrives, r, f.(place := AtSlot));
      case Over => OneMoves(c, y, Arrives, r, f.(place := Finished, acquired := false));
    }
  }

  /** acquire_slot comes back: with the slot, or without it also when it had been granted. */
  lemma ReturnKeeps(c: Config, y: System, r: nat, lost: bool)
    requires SystemInv(c, y) && Possible(y, if lost then SlotLost(r) else SlotDecided(r))
    ensures SystemInv(c, Next(c, y, if lost then SlotLost(r) else SlotDecided(r)))
  {
    var s, i, f := y.queue, y.infs[r].call.value, y.infs[r];
    assert Truthful(y, r);
    if s.calls[i] == Waiting(Granted) && (lost || s.draining) {
      ReleaseLedger(c, s, y.released, i);
    }
    if lost {
      OneMoves(c, y, Expires(i), r, f.(acquired := false, place := Finished));
    } else {
      var ok := Step(c, s, Resumes(i)).calls[i] == Holding;
      OneMoves(c, y, Resumes(i), r, f.(acquired := ok, place := if ok then AtReady else Finished));
    }
  }

  lemma DrainedKeeps(c: Config, y: System, value: bool)
    requires SystemInv(c, y) && Below(y.queue.waiters, |y.queue.calls|)
    ensures SystemInv(c, InQueue(c, y, Drains(value)))
  {
    var z := InQueue(c, y, Drains(value));
    QueueLedger(c, y.queue, y.released, Drains(value));
    StepLength(c, y.queue, Drains(value));
    forall u: nat | u < |z.infs| ensures Truthful(z, u) {
      assert Truthful(y, u);
    }
  }

  lemma BeginsKeeps(c: Config, y: System, consumer: bool)
    requires SystemInv(c, y)
    ensures SystemInv(c, y.(infs := y.infs + [Inference(consumer, AtBody, false, None)]))
  {
    var z := y.(infs := y.infs + [Inference(consumer, AtBody, false, None)]);
    forall u: nat | u < |z.infs| ensures Truthful(z, u) {
      assert u < |y.infs| ==> Truthful(y, u);
    }
    forall i: nat | i < |z.queue.calls| ensures Made(z.infs, i) {
      assert Made(y.infs, i);
      var u :| 0 <= u < |y.infs| && y.infs[u].call == Some(i);
      assert z.infs[u].call == Some(i);
    }
  }

  lemma NextKeeps(c: Config, y: System, e: Event)
    requires SystemInv(c, y) && Possible(y, e)
    ensures SystemInv(c, Next(c, y, e))
  {
    match e {
      case Begins(consumer) => BeginsKeeps(c, y, consumer);
      case BodyRead(r, ok) =>
        if ok { AcquireKeeps(c, y, r); } else { LeaveKeeps(c, y, r); }
      case SlotDecided(r) => ReturnKeeps(c, y, r, false);
      case SlotLost(r) => ReturnKeeps(c, y, r, true);
      case ReadyDone(r, ok) =>
        assert Truthful(y, r);
        if ok {
          StaysInQueue(c, y, r, y.infs[r].(place := AtUpstream));
        } else {
          LeaveKeeps(c, y, r);
        }
      case UpstreamDone(r) => LeaveKeeps(c, y, r);
      case Drained(value) => DrainedKeeps(c, y, value);
    }
  }

  // ---- what each step does

  /** Inference r now stands as f says, and no other moved. */
  ghost predicate Moved(y: System, z: System, r: nat, f: Inference) {
    r < |y.infs| && z.infs == y.infs[r := f]
  }

  /** The call that an inference makes when its body has been read is refused, takes a slot or waits, in
      terms of the queue as it finds it; in each case the queue and the flag agree. */
  lemma BodyReadIs(c: Config, y: System, r: nat)
    requires SystemInv(c, y) && Possible(y, BodyRead(r, true))
    ensures var z, s := Next(c, y, BodyRead(r, true)), y.queue;
            var f := y.infs[r].(call := Some(|s.calls|));
            && z.released == y.released
            && if s.draining || (s.active == c.concurrency && |s.waiters| >= c.queueLimit) then
                 Moved(y, z, r, f.(place := Finished)) && z.queue == s.(calls := s.calls + [Over])
               else if s.active < c.concurrency then
                 && Moved(y, z, r, f.(place := AtReady, acquired := true))
                 && z.queue == s.(calls := s.calls + [Holding], active := s.active + 1,
                     admitted := s.admitted + [|s.calls|])
               else
                 && Moved(y, z, r, f.(place := AtSlot))
                 && z.queue == s.(calls := s.calls + [Waiting(Pending)], waiters := s.waiters + [|s.calls|])
  {
    ArrivalIff(c, y.queue);
    assert y.released + [] == y.released;
  }

  /** acquire_slot comes back. Only a grant seen while not draining goes on; a grant that is not used is
      passed on, once. */
  lemma ReturnIs(c: Config, y: System, r: nat, lost: bool)
    requires SystemInv(c, y) && Possible(y, if lost then SlotLost(r) else SlotDecided(r))
    ensures var z, s, f := Next(c, y, if lost then SlotLost(r) else SlotDecided(r)), y.queue, y.infs[r];
            var i := f.call.value;
            if !lost && s.calls[i] == Waiting(Granted) && !s.draining then
              && Moved(y, z, r, f.(place := AtReady, acquired := true)) && z.released == y.released
              && z.queue == s.(calls := s.calls[i := Holding])
            else
              && Moved(y, z, r, f.(place := Finished, acquired := false))
              && if s.calls[i] == Waiting(Granted) then PassesOn(s, z.queue, i) && z.released == y.released + [i]
                 else z.queue.active == s.active && z.queue.admitted == s.admitted && z.released == y.released
  {
    var i := y.infs[r].call.value;
    if lost {
      ExpireIs(c, y.queue, i);
    } else {
      ResumeIs(c, y.queue, i);
    }
    assert y.released + [] == y.released;
  }

  /** An inference that ends gives back the slot that it holds, if it holds one; nothing else does. */
  lemma LeavingIs(c: Config, y: System, r: nat, e: Event)
    requires SystemInv(c, y) && Possible(y, e)
    requires e == BodyRead(r, false) || e == ReadyDone(r, false) || e == UpstreamDone(r)
    ensures var z, f := Next(c, y, e), y.infs[r];
            && Moved(y, z, r, f.(place := Finished))
            && if f.place == AtBody then z.queue == y.queue && z.released == y.released
               else && f.call.Some? && f.call.value < |y.queue.calls|
                    && PassesOn(y.queue, z.queue, f.call.value) && z.released == y.released + [f.call.value]
  {
    assert Truthful(y, r);
    if y.infs[r].acquired {
      FinishIs(c, y.queue, y.infs[r].call.value);
    }
  }

  /** A ready backend is talked to with the slot that is already held: there is no second admission. */
  lemma ReadyIs(c: Config, y: System, r: nat)
    requires SystemInv(c, y) && Possible(y, ReadyDone(r, true))
    ensures var z := Next(c, y, ReadyDone(r, true));
            Moved(y, z, r, y.infs[r].(place := AtUpstream)) && z.queue == y.queue && z.released == y.released
  {
    assert Truthful(y, r);
  }

  // ---- whole runs

  ghost predicate IsHistory(c: Config, run: seq<System>, events: seq<Event>) {
    && |run| == |events| + 1 && run[0] == START
    && forall i :: 0 <= i < |events| ==> Possible(run[i], events[i]) && run[i + 1] == Next(c, run[i], events[i])
  }

  lemma {:induction false} HistoryKeeps(c: Config, run: seq<System>, events: seq<Event>, n: nat)
    requires IsHistory(c, run, events) && n < |run|
    ensures SystemInv(c, run[n])
  {
    if n == 0 {
      assert Owners([]) == {};
    } else {
      HistoryKeeps(c, run, events, n - 1);
      NextKeeps(c, run[n - 1], events[n - 1]);
    }
  }

  /** In every state of every run, whatever failed or was cancelled where. */
  lemma InferenceTheorem(c: Config, run: seq<System>, events: seq<Event>, n: nat)
    requires IsHistory(c, run, events) && n < |run|
    ensures var y := run[n];
            // the counter is admissions less releases, and nothing is released twice
            && y.queue.active == |y.queue.admitted| - |y.released| && Once(y.released) && Once(y.queue.admitted)
            // an inference that has ended owns no slot; what it was given, if anything, it gave back
            && (forall r: nat :: r < |y.infs| && y.infs[r].place == Finished && y.infs[r].call.Some? ==>
                  var i := y.infs[r].call.value;
                  i !in Owners(y.queue.calls) && (i in y.released <==> i in y.queue.admitted))
            // one that has not ended has released nothing, and its flag says whether it holds a slot
            && (forall r: nat :: r < |y.infs| && y.infs[r].place != Finished ==>
                  && (y.infs[r].call.Some? ==> y.infs[r].call.value !in y.released)
                  && (y.infs[r].acquired <==> y.infs[r].call.Some? && y.infs[r].call.value < |y.queue.calls|
                                              && y.queue.calls[y.infs[r].call.value] == Holding))
            // once all have ended, every slot is free
            && ((forall r: nat :: r < |y.infs| ==> y.infs[r].place == Finished) ==> y.queue.active == 0)
  {
    var y := run[n];
    HistoryKeeps(c, run, events, n);
    AdmittedOnce(y.queue.admitted, y.queue.waiters);
    forall r: nat | r < |y.infs| && y.infs[r].place == Finished && y.infs[r].call.Some?
      ensures var i := y.infs[r].call.value; i !in Owners(y.queue.calls) && (i in y.released <==> i in y.queue.admitted)
    {
      assert Truthful(y, r);
    }
    forall r: nat | r < |y.infs| && y.infs[r].place != Finished
      ensures y.infs[r].call.Some? ==> y.infs[r].call.value !in y.released
      ensures y.infs[r].acquired <==> y.infs[r].call.Some? && y.infs[r].call.value < |y.queue.calls|
                                      && y.queue.calls[y.infs[r].call.value] == Holding
    {
      assert Truthful(y, r);
    }
    if forall r: nat :: r < |y.infs| ==> y.infs[r].place == Finished {
      AllOver(c, y);
    }
  }

  lemma AllOver(c: Config, y: System)
    requires SystemInv(c, y) && forall r: nat :: r < |y.infs| ==> y.infs[r].place == Finished
    ensures y.queue.active == 0
  {
    forall i: nat | i < |y.queue.calls| ensures y.queue.calls[i] == Over {
      assert Made(y.infs, i);
      var r :| 0 <= r < |y.infs| && y.infs[r].call == Some(i);
      assert Truthful(y, r);
    }
    assert Owners(y.queue.calls) == {};
  }

  lemma AdmittedOnce(a: seq<nat>, q: seq<nat>)
    requires Increasing(a + q)
    ensures Once(a)
  {
    forall i, j | 0 <= i < j < |a| ensures a[i] != a[j] {
      assert (a + q)[i] == a[i] && (a + q)[j] == a[j];
    }
  }
}
