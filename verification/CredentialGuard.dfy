/**
 The credential guard of the mobile gateway: a readers/writer gate on one condition variable, used
 under two plain locks, that keeps the rotation of the backend session token atomic relative to the
 POSTs that use it.

 The atomic steps are the pieces between two awaits. The condition's own lock is never held across
 an await, so it does not appear. Requests may be cancelled at every await but the release of the
 guard. Replies carry a new token only to requests that hold the guard exclusively.
 */
module CredentialGuard {
  import opened Helpers

  datatype Mode = Exclusive | Shared

  /** The lock held around the guard: bootstrap_lock, mutation_lock, or none (audio). */
  datatype Lock = Bootstrap | Mutation | NoLock

  type Token = int

  /** Where a request stands. A request that waits inside the guard is asleep until it is notified;
      one that is inside remembers the token it sent. */
  datatype Pc =
    | Idle
    | Wants(lock: Lock, mode: Mode)
    | Waits(lock: Lock, mode: Mode, notified: bool)
    | Inside(lock: Lock, mode: Mode, token: Token)

  datatype State = State(activePosts: int, rotationWaiters: int, rotating: bool, csrf: Token,
                         bootstrap: Option<nat>, mutation: Option<nat>, threads: seq<Pc>)

  // ---- the atomic steps

  function Notified(pc: Pc): Pc {
    if pc.Waits? then pc.(notified := true) else pc
  }

  function NotifyAll(threads: seq<Pc>): (r: seq<Pc>)
    ensures |r| == |threads| && forall i :: 0 <= i < |r| ==> r[i] == Notified(threads[i])
  {
    seq(|threads|, i requires 0 <= i < |threads| => Notified(threads[i]))
  }

  function Holder(s: State, lock: Lock): Option<nat> {
    match lock
    case Bootstrap => s.bootstrap
    case Mutation => s.mutation
    case NoLock => None
  }

  function SetHolder(s: State, lock: Lock, holder: Option<nat>): State {
    match lock
    case Bootstrap => s.(bootstrap := holder)
    case Mutation => s.(mutation := holder)
    case NoLock => s
  }

  predicate MayEnter(s: State, mode: Mode) {
    !s.rotating && if mode == Exclusive then s.activePosts == 0 else s.rotationWaiters == 0
  }

  /** The guard is granted; an exclusive request leaves the waiters and notifies. */
  function Grant(s: State, t: nat, lock: Lock, mode: Mode): State
    requires t < |s.threads|
  {
    var threads := s.threads[t := Inside(lock, mode, s.csrf)];
    if mode == Exclusive then
      s.(rotating := true, rotationWaiters := s.rotationWaiters - 1, threads := NotifyAll(threads))
    else s.(activePosts := s.activePosts + 1, threads := threads)
  }

  /** The first check in the guard, right after the surrounding lock was taken. */
  function Enter(s: State, t: nat, lock: Lock, mode: Mode): State
    requires t < |s.threads|
  {
    var r := if mode == Exclusive then s.(rotationWaiters := s.rotationWaiters + 1) else s;
    if MayEnter(r, mode) then Grant(r, t, lock, mode)
    else r.(threads := s.threads[t := Waits(lock, mode, false)])
  }

  /** A notified request checks again. */
  function Recheck(s: State, t: nat): State
    requires t < |s.threads| && s.threads[t].Waits?
  {
    var pc := s.threads[t];
    if MayEnter(s, pc.mode) then Grant(s, t, pc.lock, pc.mode)
    else s.(threads := s.threads[t := pc.(notified := false)])
  }

  /** A waiting request is cancelled: an exclusive one undoes its announcement and notifies. */
  function CancelWait(s: State, t: nat): State
    requires t < |s.threads| && s.threads[t].Waits?
  {
    var pc := s.threads[t];
    var r := SetHolder(s.(threads := s.threads[t := Idle]), pc.lock, None);
    if pc.mode == Exclusive then r.(rotationWaiters := s.rotationWaiters - 1, threads := NotifyAll(r.threads)) else r
  }

  /** The guarded request ends, possibly with a new token: the guard is released, everyone notified. */
  function LeaveGuard(s: State, t: nat, reply: Option<Token>): State
    requires t < |s.threads| && s.threads[t].Inside?
  {
    var u := s.(csrf := if reply.Some? then reply.value else s.csrf, threads := NotifyAll(s.threads[t := Idle]));
    if s.threads[t].mode == Exclusive then u.(rotating := false) else u.(activePosts := s.activePosts - 1)
  }

  /** And then its lock. */
  function Leave(s: State, t: nat, reply: Option<Token>): State
    requires t < |s.threads| && s.threads[t].Inside?
  {
    SetHolder(LeaveGuard(s, t, reply), s.threads[t].lock, None)
  }

  datatype Event =
    | Request(t: nat, lock: Lock, mode: Mode)
    | Take(t: nat)
    | GiveUp(t: nat)
    | Rechecks(t: nat)
    | Cancels(t: nat)
    | Leaves(t: nat, reply: Option<Token>)

  predicate Enabled(s: State, e: Event) {
    e.t < |s.threads| &&
    var pc := s.threads[e.t];
    match e
    case Request(_, lock, mode) => pc == Idle && (lock == Bootstrap ==> mode == Exclusive)
    case Take(_) => pc.Wants? && Holder(s, pc.lock) == None
    case GiveUp(_) => pc.Wants?
    case Rechecks(_) => pc.Waits? && pc.notified
    case Cancels(_) => pc.Waits?
    case Leaves(_, reply) => pc.Inside? && (reply.Some? ==> pc.mode == Exclusive)
  }

  function Step(s: State, e: Event): State
    requires Enabled(s, e)
  {
    match e
    case Request(t, lock, mode) =>
      if lock == NoLock then Enter(s, t, lock, mode) else s.(threads := s.threads[t := Wants(lock, mode)])
    case Take(t) =>
      var pc := s.threads[t];
      Enter(SetHolder(s, pc.lock, Some(t)), t, pc.lock, pc.mode)
    case GiveUp(t) => s.(threads := s.threads[t := Idle])
    case Rechecks(t) => Recheck(s, t)
    case Cancels(t) => CancelWait(s, t)
    case Leaves(t, reply) => Leave(s, t, reply)
  }

  // ---- the invariant

  predicate Posts(pc: Pc) { pc.Inside? && pc.mode == Shared }
  predicate Rotates(pc: Pc) { pc.Inside? && pc.mode == Exclusive }
  predicate Announced(pc: Pc) { pc.Waits? && pc.mode == Exclusive }

  function Posting(threads: seq<Pc>): (r: set<nat>)
    ensures forall i: nat :: i in r <==> i < |threads| && Posts(threads[i])
  {
    set i: nat | i < |threads| && Posts(threads[i])
  }

  function Rotating(threads: seq<Pc>): (r: set<nat>)
    ensures forall i: nat :: i in r <==> i < |threads| && Rotates(threads[i])
  {
    set i: nat | i < |threads| && Rotates(threads[i])
  }

  function Announcing(threads: seq<Pc>): (r: set<nat>)
    ensures forall i: nat :: i in r <==> i < |threads| && Announced(threads[i])
  {
    set i: nat | i < |threads| && Announced(threads[i])
  }

  predicate Holds(pc: Pc, lock: Lock) {
    (pc.Waits? || pc.Inside?) && pc.lock == lock
  }

  /** The counters count, and the gate excludes. */
  ghost predicate Counted(s: State) {
    && s.activePosts == |Posting(s.threads)|
    && s.rotationWaiters == |Announcing(s.threads)|
    && |Rotating(s.threads)| == Bit(s.rotating)
    && (s.rotating ==> s.activePosts == 0)
  }

  /** The token that a guarded request sent is the current one. */
  ghost predicate TokensCurrent(s: State) {
    forall i :: 0 <= i < |s.threads| && s.threads[i].Inside? ==> s.threads[i].token == s.csrf
  }

  ghost predicate Exact(s: State) {
    Counted(s) && TokensCurrent(s)
  }

  /** The lock is held by exactly the request that has it. */
  ghost predicate HeldBy(threads: seq<Pc>, lock: Lock, holder: Option<nat>) {
    && (holder.Some? ==> holder.value < |threads|)
    && forall i: nat :: i < |threads| ==> (Holds(threads[i], lock) <==> holder == Some(i))
  }

  ghost predicate LocksHeld(s: State) {
    HeldBy(s.threads, Bootstrap, s.bootstrap) && HeldBy(s.threads, Mutation, s.mutation)
  }

  /** No wake-up is lost: a request sleeps only while it may not enter. */
  ghost predicate NoLostWakeup(s: State) {
    forall i :: 0 <= i < |s.threads| && s.threads[i].Waits? && !s.threads[i].notified ==>
      !MayEnter(s, s.threads[i].mode)
  }

  ghost predicate Inv(s: State) {
    Exact(s) && LocksHeld(s) && NoLostWakeup(s)
  }

  /** What one request's change does to the three counts. */
  lemma CountsUpdate(threads: seq<Pc>, t: nat, pc: Pc)
    requires t < |threads|
    ensures var after := threads[t := pc];
            && Posting(after) == (if Posts(pc) then Posting(threads) + {t} else Posting(threads) - {t})
            && Rotating(after) == (if Rotates(pc) then Rotating(threads) + {t} else Rotating(threads) - {t})
            && Announcing(after) == (if Announced(pc) then Announcing(threads) + {t} else Announcing(threads) - {t})
  {}

  lemma CountsNotify(threads: seq<Pc>)
    ensures var after := NotifyAll(threads);
            Posting(after) == Posting(threads) && Rotating(after) == Rotating(threads)
                && Announcing(after) == Announcing(threads)
  {}

  /** The holder of a lock after request t has moved to pc. */
  function NextHolder(holder: Option<nat>, lock: Lock, t: nat, pc: Pc): Option<nat> {
    if Holds(pc, lock) then Some(t) else if holder == Some(t) then None else holder
  }

  lemma HeldUpdate(threads: seq<Pc>, lock: Lock, holder: Option<nat>, t: nat, pc: Pc)
    requires t < |threads| && HeldBy(threads, lock, holder)
    requires Holds(pc, lock) ==> holder == None || holder == Some(t)
    ensures var after := threads[t := pc];
            HeldBy(after, lock, NextHolder(holder, lock, t, pc))
                && HeldBy(NotifyAll(after), lock, NextHolder(holder, lock, t, pc))
  {}

  lemma LocksUpdate(s: State, t: nat, pc: Pc, u: State)
    requires t < |s.threads| && LocksHeld(s)
    requires u.threads == s.threads[t := pc] || u.threads == NotifyAll(s.threads[t := pc])
    requires Holds(pc, Bootstrap) ==> s.bootstrap == None || s.bootstrap == Some(t)
    requires Holds(pc, Mutation) ==> s.mutation == None || s.mutation == Some(t)
    requires u.bootstrap == NextHolder(s.bootstrap, Bootstrap, t, pc)
             && u.mutation == NextHolder(s.mutation, Mutation, t, pc)
    ensures LocksHeld(u)
  {
    HeldUpdate(s.threads, Bootstrap, s.bootstrap, t, pc);
    HeldUpdate(s.threads, Mutation, s.mutation, t, pc);
  }

  /** Everyone but t sleeps only while they may not enter. */
  ghost predicate OthersAwake(s: State, t: nat) {
    forall i :: 0 <= i < |s.threads| && i != t && s.threads[i].Waits? && !s.threads[i].notified ==>
      !MayEnter(s, s.threads[i].mode)
  }

  function Bit(b: bool): int { if b then 1 else 0 }

  lemma SizeUpdate(a: set<nat>, b: set<nat>, t: nat, now: bool)
    requires b == if now then a + {t} else a - {t}
    ensures |b| == |a| + Bit(now) - Bit(t in a)
  {
    if now && t in a {
      assert a + {t} == a;
    } else if !now && t !in a {
      assert a - {t} == a;
    }
  }

  /** The counters stay exact if they change as the request t does. */
  lemma CountedUpdate(s: State, t: nat, pc: Pc, u: State)
    requires t < |s.threads| && Counted(s)
    requires u.threads == s.threads[t := pc] || u.threads == NotifyAll(s.threads[t := pc])
    requires u.activePosts == s.activePosts + Bit(Posts(pc)) - Bit(Posts(s.threads[t]))
    requires u.rotationWaiters == s.rotationWaiters + Bit(Announced(pc)) - Bit(Announced(s.threads[t]))
    requires Bit(u.rotating) == Bit(s.rotating) + Bit(Rotates(pc)) - Bit(Rotates(s.threads[t]))
    requires u.rotating ==> u.activePosts == 0
    ensures Counted(u)
  {
    var after := s.threads[t := pc];
    CountsUpdate(s.threads, t, pc);
    CountsNotify(after);
    SizeUpdate(Posting(s.threads), Posting(after), t, Posts(pc));
    SizeUpdate(Rotating(s.threads), Rotating(after), t, Rotates(pc));
    SizeUpdate(Announcing(s.threads), Announcing(after), t, Announced(pc));
  }

  lemma TokensUpdate(s: State, t: nat, pc: Pc, u: State)
    requires t < |s.threads| && TokensCurrent(s)
    requires u.threads == s.threads[t := pc] || u.threads == NotifyAll(s.threads[t := pc])
    requires pc.Inside? ==> pc.token == u.csrf
    requires u.csrf == s.csrf || forall i :: 0 <= i < |s.threads| && i != t ==> !s.threads[i].Inside?
    ensures TokensCurrent(u)
  {}

  /** Sleepers stay justified if all are notified, or if nothing that the step did lets anybody in. */
  lemma WakeupUpdate(s: State, t: nat, pc: Pc, u: State)
    requires t < |s.threads| && OthersAwake(s, t)
    requires || u.threads == NotifyAll(s.threads[t := pc])
             || (&& u.threads == s.threads[t := pc]
                 && (MayEnter(u, Exclusive) ==> MayEnter(s, Exclusive)) && (MayEnter(u, Shared) ==> MayEnter(s, Shared))
                 && (pc.Waits? && !pc.notified ==> !MayEnter(u, pc.mode)))
    ensures NoLostWakeup(u)
  {}

  lemma MoveKeeps(s: State, t: nat, pc: Pc, u: State)
    requires t < |s.threads| && Exact(s) && LocksHeld(s) && OthersAwake(s, t)
    requires u.threads == s.threads[t := pc] || u.threads == NotifyAll(s.threads[t := pc])
    // counters and token
    requires u.activePosts == s.activePosts + Bit(Posts(pc)) - Bit(Posts(s.threads[t]))
    requires u.rotationWaiters == s.rotationWaiters + Bit(Announced(pc)) - Bit(Announced(s.threads[t]))
    requires Bit(u.rotating) == Bit(s.rotating) + Bit(Rotates(pc)) - Bit(Rotates(s.threads[t]))
    requires u.rotating ==> u.activePosts == 0
    requires pc.Inside? ==> pc.token == u.csrf
    requires u.csrf == s.csrf || forall i :: 0 <= i < |s.threads| && i != t ==> !s.threads[i].Inside?
    // locks
    requires Holds(pc, Bootstrap) ==> s.bootstrap == None || s.bootstrap == Some(t)
    requires Holds(pc, Mutation) ==> s.mutation == None || s.mutation == Some(t)
    requires u.bootstrap == NextHolder(s.bootstrap, Bootstrap, t, pc)
             && u.mutation == NextHolder(s.mutation, Mutation, t, pc)
    // sleepers
    requires || u.threads == NotifyAll(s.threads[t := pc])
             || (&& (MayEnter(u, Exclusive) ==> MayEnter(s, Exclusive)) && (MayEnter(u, Shared) ==> MayEnter(s, Shared))
                 && (pc.Waits? && !pc.notified ==> !MayEnter(u, pc.mode)))
    ensures Inv(u)
  {
    CountedUpdate(s, t, pc, u);
    TokensUpdate(s, t, pc, u);
    LocksUpdate(s, t, pc, u);
    WakeupUpdate(s, t, pc, u);
  }

  lemma RotationCounts(s: State, t: nat)
    requires Exact(s) && t < |s.threads|
    ensures Rotates(s.threads[t]) ==> s.rotating && forall i :: 0 <= i < |s.threads| && s.threads[i].Inside? ==> i == t
  {
    if Rotates(s.threads[t]) {
      OnlyOneRotates(s, t);
    }
  }

  /** A rotation excludes every other guarded request. */
  lemma OnlyOneRotates(s: State, t: nat)
    requires Exact(s) && t < |s.threads| && Rotates(s.threads[t])
    ensures s.rotating && s.activePosts == 0
    ensures forall i :: 0 <= i < |s.threads| && s.threads[i].Inside? ==> i == t
  {
    var r := Rotating(s.threads);
    assert t in r;
    assert |r - {t}| == |r| - 1;
    assert r - {t} == {};
    assert Posting(s.threads) == {};
    assert forall i: nat :: i < |s.threads| && s.threads[i].Inside? ==> i in r || i in Posting(s.threads);
  }

  /** Entering the guard: a grant, or sleep. */
  lemma EnterKeeps(s: State, t: nat, lock: Lock, mode: Mode)
    requires Inv(s) && t < |s.threads| && (s.threads[t] == Idle || s.threads[t].Wants?) && Holder(s, lock) == None
    ensures Inv(Enter(SetHolder(s, lock, Some(t)), t, lock, mode))
  {
    var u := Enter(SetHolder(s, lock, Some(t)), t, lock, mode);
    var pc := if MayEnter(s, mode) then Inside(lock, mode, s.csrf) else Waits(lock, mode, false);
    MoveKeeps(s, t, pc, u);
  }

  lemma RecheckKeeps(s: State, t: nat)
    requires Inv(s) && t < |s.threads| && s.threads[t].Waits?
    ensures Inv(Recheck(s, t))
  {
    var pc := s.threads[t];
    if MayEnter(s, pc.mode) {
      MoveKeeps(s, t, Inside(pc.lock, pc.mode, s.csrf), Recheck(s, t));
    } else {
      MoveKeeps(s, t, pc.(notified := false), Recheck(s, t));
    }
  }

  lemma CancelKeeps(s: State, t: nat)
    requires Inv(s) && t < |s.threads| && s.threads[t].Waits?
    ensures Inv(CancelWait(s, t))
  {
    MoveKeeps(s, t, Idle, CancelWait(s, t));
  }

  lemma LeaveKeeps(s: State, t: nat, reply: Option<Token>)
    requires Inv(s) && Enabled(s, Leaves(t, reply))
    ensures Inv(Leave(s, t, reply))
  {
    RotationCounts(s, t);
    MoveKeeps(s, t, Idle, Leave(s, t, reply));
  }

  /** Exact counters, exclusion, current tokens, consistent locks and no lost wake-up survive every step. */
  lemma StepKeeps(s: State, e: Event)
    requires Inv(s) && Enabled(s, e)
    ensures Inv(Step(s, e))
  {
    match e {
      case Request(t, lock, mode) =>
        if lock == NoLock {
          EnterKeeps(s, t, lock, mode);
        } else {
          MoveKeeps(s, t, Wants(lock, mode), Step(s, e));
        }
      case Take(t) => EnterKeeps(s, t, s.threads[t].lock, s.threads[t].mode);
      case GiveUp(t) => MoveKeeps(s, t, Idle, Step(s, e));
      case Rechecks(t) => RecheckKeeps(s, t);
      case Cancels(t) => CancelKeeps(s, t);
      case Leaves(t, reply) => LeaveKeeps(s, t, reply);
    }
  }

  // ---- what each step does, in terms of the requests

  /** A POST may enter exactly if no rotation is under way or announced, however many POSTs are inside; a rotation
      exactly if nobody is inside, announced or not. */
  lemma MayEnterIff(s: State)
    requires Inv(s)
    ensures MayEnter(s, Shared) <==>
              forall i: nat :: i < |s.threads| ==> !Rotates(s.threads[i]) && !Announced(s.threads[i])
    ensures MayEnter(s, Exclusive) <==> forall i: nat :: i < |s.threads| ==> !s.threads[i].Inside?
  {
    var posting, rotating, announcing := Posting(s.threads), Rotating(s.threads), Announcing(s.threads);
    assert s.activePosts == 0 <==> posting == {};
    assert !s.rotating <==> rotating == {};
    assert s.rotationWaiters == 0 <==> announcing == {};
    assert (forall i: nat :: i < |s.threads| ==> !Announced(s.threads[i])) <==> announcing == {} by {
      assert forall i: nat :: i < |s.threads| && Announced(s.threads[i]) ==> i in announcing;
    }
    assert (forall i: nat :: i < |s.threads| ==> !Rotates(s.threads[i])) <==> rotating == {} by {
      assert forall i: nat :: i < |s.threads| && Rotates(s.threads[i]) ==> i in rotating;
    }
    assert (forall i: nat :: i < |s.threads| ==> !Posts(s.threads[i])) <==> posting == {} by {
      assert forall i: nat :: i < |s.threads| && Posts(s.threads[i]) ==> i in posting;
    }
    assert forall i: nat :: i < |s.threads| ==>
      (s.threads[i].Inside? <==> Posts(s.threads[i]) || Rotates(s.threads[i]));
  }

  /** Only request t moved; the others are as they were, or, all of them, woken up. */
  ghost predicate OnlyMoved(s: State, u: State, t: nat, pc: Pc, wakes: bool) {
    && |u.threads| == |s.threads| && t < |u.threads| && u.threads[t] == pc
    && forall i :: 0 <= i < |s.threads| && i != t ==>
         u.threads[i] == if wakes && s.threads[i].Waits? then s.threads[i].(notified := true) else s.threads[i]
  }

  /** A request at the gate, for the first time or woken up: it enters, with the current token, exactly if the
      gate is open to its mode; otherwise it sleeps. A rotation that enters wakes the others. */
  lemma AttemptIs(s: State, e: Event, lock: Lock, mode: Mode)
    requires Inv(s) && Enabled(s, e)
    requires || (e == Request(e.t, NoLock, mode) && lock == NoLock)
             || (e == Take(e.t) && s.threads[e.t] == Wants(lock, mode))
             || (e == Rechecks(e.t) && s.threads[e.t] == Waits(lock, mode, true))
    ensures var u := Step(s, e);
            var open := forall i: nat :: i < |s.threads| ==>
              if mode == Shared then !Rotates(s.threads[i]) && !Announced(s.threads[i])
              else !s.threads[i].Inside?;
            && u.csrf == s.csrf
            && if open then OnlyMoved(s, u, e.t, Inside(lock, mode, s.csrf), mode == Exclusive)
               else OnlyMoved(s, u, e.t, Waits(lock, mode, false), false)
  {
    MayEnterIff(s);
  }

  /** A guarded request ends: its reply's token, if it has one, is the current token from then on, everybody
      who sleeps is woken up, and its lock is free. A cancelled rotation wakes everybody too. */
  lemma EndIs(s: State, e: Event)
    requires Inv(s) && Enabled(s, e) && (e.Leaves? || e.Cancels?)
    ensures var u, pc := Step(s, e), s.threads[e.t];
            && OnlyMoved(s, u, e.t, Idle, e.Leaves? || pc.mode == Exclusive)
            && u.csrf == (if e.Leaves? && e.reply.Some? then e.reply.value else s.csrf)
            && (pc.lock != NoLock ==> Holder(u, pc.lock) == None)
  {}

  // ---- whole runs

  function Initial(n: nat, csrf: Token): State {
    State(0, 0, false, csrf, None, None, seq(n, i => Idle))
  }

  ghost predicate IsRun(run: seq<State>, events: seq<Event>) {
    && |run| == |events| + 1 && (exists n: nat, csrf :: run[0] == Initial(n, csrf))
    && forall i :: 0 <= i < |events| ==> Enabled(run[i], events[i]) && run[i + 1] == Step(run[i], events[i])
  }

  lemma {:induction false} RunKeeps(run: seq<State>, events: seq<Event>, n: nat)
    requires IsRun(run, events) && n < |run|
    ensures Inv(run[n])
  {
    if n == 0 {
      assert Posting(run[0].threads) == Rotating(run[0].threads) == Announcing(run[0].threads) == {};
    } else {
      RunKeeps(run, events, n - 1);
      StepKeeps(run[n - 1], events[n - 1]);
    }
  }

  lemma NoNewPost(threads: seq<Pc>, t: nat, pc: Pc, after: seq<Pc>)
    requires t < |threads| && !Posts(pc) && (after == threads[t := pc] || after == NotifyAll(threads[t := pc]))
    ensures Posting(after) <= Posting(threads)
  {
    CountsUpdate(threads, t, pc);
    CountsNotify(threads[t := pc]);
  }

  lemma EnterAddsNoPost(s: State, t: nat, lock: Lock, mode: Mode)
    requires t < |s.threads| && s.rotationWaiters > 0
    ensures Posting(Enter(s, t, lock, mode).threads) <= Posting(s.threads)
  {
    var enters := mode == Exclusive && MayEnter(s, Exclusive);
    var pc := if enters then Inside(lock, mode, s.csrf) else Waits(lock, mode, false);
    NoNewPost(s.threads, t, pc, Enter(s, t, lock, mode).threads);
  }

  /** While a rotation is announced, no further POST gets in. */
  lemma RotationHasPriority(s: State, e: Event, t: nat)
    requires Inv(s) && Enabled(s, e) && t in Announcing(s.threads)
    ensures Posting(Step(s, e).threads) <= Posting(s.threads)
  {
    assert s.rotationWaiters > 0;
    var i, pc, u := e.t, s.threads[e.t], Step(s, e).threads;
    match e {
      case Request(_, lock, mode) =>
        if lock == NoLock {
          EnterAddsNoPost(s, i, lock, mode);
        } else {
          NoNewPost(s.threads, i, Wants(lock, mode), u);
        }
      case Take(_) => EnterAddsNoPost(SetHolder(s, pc.lock, Some(i)), i, pc.lock, pc.mode);
      case Rechecks(_) =>
        var after := if MayEnter(s, pc.mode) then Inside(pc.lock, pc.mode, s.csrf) else pc.(notified := false);
        NoNewPost(s.threads, i, after, u);
      case _ => NoNewPost(s.threads, i, Idle, u);
    }
  }

  lemma NoPostInStep(run: seq<State>, events: seq<Event>, t: nat, n: nat)
    requires IsRun(run, events) && n < |events| && t in Announcing(run[n].threads)
    ensures Posting(run[n + 1].threads) <= Posting(run[n].threads)
  {
    RunKeeps(run, events, n);
    RotationHasPriority(run[n], events[n], t);
  }

  /** Between the request of a rotation and its grant or cancellation, the POSTs only become fewer. */
  lemma {:induction false} NoPostBetween(run: seq<State>, events: seq<Event>, t: nat, m: nat, n: nat)
    requires IsRun(run, events) && m <= n < |run|
    requires forall k :: m <= k < n ==> t in Announcing(run[k].threads)
    ensures Posting(run[n].threads) <= Posting(run[m].threads)
    decreases n
  {
    if m < n {
      NoPostBetween(run, events, t, m, n - 1);
      NoPostInStep(run, events, t, n - 1);
    }
  }

  /** A step that the request can take by itself: finish, check again, or take a free lock. */
  predicate CanMove(s: State, i: nat) {
    i < |s.threads| &&
    match s.threads[i]
    case Idle => false
    case Wants(lock, _) => Holder(s, lock) == None
    case Waits(_, _, notified) => notified
    case Inside(_, _, _) => true
  }

  lemma NobodyInside(s: State)
    requires Inv(s) && forall i: nat :: !CanMove(s, i)
    ensures !s.rotating && s.activePosts == 0 && s.rotationWaiters == 0
    ensures forall i :: 0 <= i < |s.threads| ==> !s.threads[i].Waits? && !s.threads[i].Inside?
  {
    forall i: nat | i < |s.threads| ensures !s.threads[i].Inside? && (s.threads[i].Waits? ==> !s.threads[i].notified) {
      assert !CanMove(s, i);
    }
    assert Posting(s.threads) == {} && Rotating(s.threads) == {};
    assert Announcing(s.threads) == {} by {
      assert MayEnter(s, Exclusive);
    }
    assert MayEnter(s, Shared);
  }

  /** The nesting of the two locks and the guard cannot deadlock: if any request is under way, one can move. */
  lemma DeadlockFree(s: State, t: nat)
    requires Inv(s) && t < |s.threads| && s.threads[t] != Idle
    ensures exists i: nat :: CanMove(s, i)
  {
    if forall i: nat :: !CanMove(s, i) {
      NobodyInside(s);
      assert s.bootstrap == None && s.mutation == None;
      assert CanMove(s, t);
    }
  }

  /** What holds in every state of every run. */
  lemma GuardTheorem(run: seq<State>, events: seq<Event>, n: nat)
    requires IsRun(run, events) && n < |run|
    ensures var s := run[n];
            // the counters are exact, also after cancelled waits
            && s.activePosts == |Posting(s.threads)| && s.rotationWaiters == |Announcing(s.threads)|
            // a rotation excludes all POSTs and other rotations
            && (forall t: nat :: t in Rotating(s.threads) ==>
                  s.rotating && forall i: nat :: i < |s.threads| && s.threads[i].Inside? ==> i == t)
            // the token a request sent is current until its reply
            && TokensCurrent(s)
            // and some request can always move
            && (forall t: nat :: t < |s.threads| && s.threads[t] != Idle ==> exists i: nat :: CanMove(s, i))
  {
    RunKeeps(run, events, n);
    var s := run[n];
    forall t: nat | t in Rotating(s.threads)
      ensures s.rotating && forall i: nat :: i < |s.threads| && s.threads[i].Inside? ==> i == t
    {
      OnlyOneRotates(s, t);
    }
    forall t: nat | t < |s.threads| && s.threads[t] != Idle ensures exists i: nat :: CanMove(s, i) {
      DeadlockFree(s, t);
    }
  }

  // ---- the gateway object

  class Gateway {
    var activePosts: int
    var rotationWaiters: int
    var rotating: bool
    var backendCsrf: Token
    var bootstrap: Option<nat>   // the holder of bootstrap_lock
    var mutation: Option<nat>    // the holder of mutation_lock
    var threads: seq<Pc>         // the suspended requests

    function View(): State
      reads this
    {
      State(activePosts, rotationWaiters, rotating, backendCsrf, bootstrap, mutation, threads)
    }

    constructor (n: nat, csrf: Token)
      ensures View() == Initial(n, csrf) && Inv(View())
    {
      activePosts, rotationWaiters, rotating, backendCsrf := 0, 0, false, csrf;
      bootstrap, mutation, threads := None, None, seq(n, i => Idle);
      new;
      assert Posting(threads) == Rotating(threads) == Announcing(threads) == {};
    }

    /** credential_guard for a request that has its surrounding lock: the first check and, if it
        succeeds, the entry. */
    method EnterGuard(t: nat, lock: Lock, mode: Mode)
      requires t < |threads|
      modifies this
      ensures View() == Enter(old(View()), t, lock, mode)
    {
      if mode == Exclusive {
        rotationWaiters := rotationWaiters + 1;
        if !rotating && activePosts == 0 {
          rotating := true;
          rotationWaiters := rotationWaiters - 1;
          threads := NotifyAll(threads[t := Inside(lock, mode, backendCsrf)]);
        } else {
          threads := threads[t := Waits(lock, mode, false)];
        }
      } else if !rotating && rotationWaiters == 0 {
        activePosts := activePosts + 1;
        threads := threads[t := Inside(lock, mode, backendCsrf)];
      } else {
        threads := threads[t := Waits(lock, mode, false)];
      }
    }

    /** A request asks for the guard, under a lock or not. */
    method Begin(t: nat, lock: Lock, mode: Mode)
      requires Inv(View()) && Enabled(View(), Request(t, lock, mode))
      modifies this
      ensures View() == Step(old(View()), Request(t, lock, mode)) && Inv(View())
    {
      StepKeeps(View(), Request(t, lock, mode));
      if lock == NoLock {
        EnterGuard(t, lock, mode);
      } else {
        threads := threads[t := Wants(lock, mode)];
      }
    }

    /** The lock becomes free and this request gets it. */
    method TakeLock(t: nat)
      requires Inv(View()) && Enabled(View(), Take(t))
      modifies this
      ensures View() == Step(old(View()), Take(t)) && Inv(View())
    {
      StepKeeps(View(), Take(t));
      var lock, mode := threads[t].lock, threads[t].mode;
      if lock == Bootstrap {
        bootstrap := Some(t);
      } else if lock == Mutation {
        mutation := Some(t);
      }
      EnterGuard(t, lock, mode);
    }

    /** wait_for wakes up: check the predicate again, or, cancelled, leave the guard and the lock. */
    method Resume(t: nat, cancelled: bool)
      requires Inv(View()) && t < |threads| && threads[t].Waits? && (!cancelled ==> threads[t].notified)
      modifies this
      ensures View() == Step(old(View()), if cancelled then Cancels(t) else Rechecks(t)) && Inv(View())
    {
      StepKeeps(View(), if cancelled then Cancels(t) else Rechecks(t));
      var lock, mode := threads[t].lock, threads[t].mode;
      if cancelled {
        threads := threads[t := Idle];
        if mode == Exclusive {
          rotationWaiters := rotationWaiters - 1;
          threads := NotifyAll(threads);
        }
        ReleaseLock(lock);
      } else if MayEnter(View(), mode) {
        threads := threads[t := Inside(lock, mode, backendCsrf)];
        if mode == Exclusive {
          rotating := true;
          rotationWaiters := rotationWaiters - 1;
          threads := NotifyAll(threads);
        } else {
          activePosts := activePosts + 1;
        }
      } else {
        threads := threads[t := Waits(lock, mode, false)];
      }
    }

    method ReleaseLock(lock: Lock)
      modifies `bootstrap, `mutation
      ensures View() == SetHolder(old(View()), lock, None)
    {
      if lock == Bootstrap {
        bootstrap := None;
      } else if lock == Mutation {
        mutation := None;
      }
    }

    /** The end of the guarded block: store a new token, then the guard's finally. */
    method ExitGuard(t: nat, reply: Option<Token>)
      requires t < |threads| && threads[t].Inside?
      modifies this
      ensures View() == LeaveGuard(old(View()), t, reply)
    {
      var mode := threads[t].mode;
      if reply.Some? {
        backendCsrf := reply.value;
      }
      if mode == Exclusive {
        rotating := false;
      } else {
        activePosts := activePosts - 1;
      }
      threads := NotifyAll(threads[t := Idle]);
    }

    /** The reply arrived, or the request failed or was cancelled. */
    method Finish(t: nat, reply: Option<Token>)
      requires Inv(View()) && Enabled(View(), Leaves(t, reply))
      modifies this
      ensures View() == Step(old(View()), Leaves(t, reply)) && Inv(View())
    {
      StepKeeps(View(), Leaves(t, reply));
      var lock := threads[t].lock;
      ExitGuard(t, reply);
      ReleaseLock(lock);
    }
  }
}
