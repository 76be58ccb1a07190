/**
 Admission to the engine: the bounded FIFO queue of the gateway. The atomic steps are the pieces of
 acquire_slot, release_slot and the draining setter between two awaits; they may interleave in any
 order. A call of acquire_slot is identified by its arrival number.
 */
module SlotQueue {

  /** The future a queued call waits on. A cancelled future belongs to a call that is over. */
  datatype Future = Pending | Granted | Refused

  /** Where a call of acquire_slot, and the inference that made it, stands. */
  datatype Call = Waiting(future: Future) | Holding | Over

  datatype Config = Config(concurrency: nat, queueLimit: nat)

  /** The gateway's fields, the calls, and the order in which slots were handed out. */
  datatype State = State(active: int, waiters: seq<nat>, draining: bool, calls: seq<Call>, admitted: seq<nat>)

  const INITIAL := State(0, [], false, [], [])

  predicate Below(q: seq<nat>, n: nat) {
    forall j :: 0 <= j < |q| ==> q[j] < n
  }

  // ---- the atomic steps

  /** The loop of release_slot: reserve for the oldest waiters while there is room. */
  function HandOff(c: Config, s: State): State
    requires Below(s.waiters, |s.calls|)
    decreases |s.waiters|
  {
    if s.waiters != [] && !s.draining && s.active < c.concurrency then
      var k := s.waiters[0];
      var t := s.(waiters := s.waiters[1..]);
      HandOff(c, if s.calls[k] == Waiting(Pending) then
                   t.(active := s.active + 1, calls := s.calls[k := Waiting(Granted)], admitted := s.admitted + [k])
                 else t)
    else s
  }

  function Release(c: Config, s: State): State
    requires Below(s.waiters, |s.calls|)
  {
    HandOff(c, s.(active := s.active - 1))
  }

  /** acquire_slot up to its await. */
  function Arrive(c: Config, s: State): State {
    var i := |s.calls|;
    if s.draining then s.(calls := s.calls + [Over])
    else if s.active < c.concurrency && s.waiters == [] then
      s.(active := s.active + 1, calls := s.calls + [Holding], admitted := s.admitted + [i])
    else if |s.waiters| >= c.queueLimit then s.(calls := s.calls + [Over])
    else s.(waiters := s.waiters + [i], calls := s.calls + [Waiting(Pending)])
  }

  /** The future's result reaches the call. */
  function Deliver(c: Config, s: State, i: nat): State
    requires i < |s.calls| && (s.calls[i] == Waiting(Granted) || s.calls[i] == Waiting(Refused))
    requires Below(s.waiters, |s.calls|)
  {
    if s.calls[i] == Waiting(Refused) then s.(calls := s.calls[i := Over])
    else if s.draining then Release(c, s.(calls := s.calls[i := Over]))
    else s.(calls := s.calls[i := Holding])
  }

  function Without(q: seq<nat>, i: nat): seq<nat> {
    if q == [] then [] else if q[0] == i then q[1..] else [q[0]] + Without(q[1..], i)
  }

  /** The call is cancelled or its wait times out, possibly after a grant that it has not seen. */
  function Expire(c: Config, s: State, i: nat): State
    requires i < |s.calls| && s.calls[i].Waiting?
    requires Below(s.waiters, |s.calls|)
  {
    var over := s.(calls := s.calls[i := Over]);
    if s.calls[i].future == Granted then Release(c, over)
    else over.(waiters := Without(s.waiters, i))
  }

  /** The inference that holds a slot ends, in whatever way: its finally block releases. */
  function Finish(c: Config, s: State, i: nat): State
    requires i < |s.calls| && s.calls[i] == Holding
    requires Below(s.waiters, |s.calls|)
  {
    Release(c, s.(calls := s.calls[i := Over]))
  }

  function RefuseAll(q: seq<nat>, calls: seq<Call>): (r: seq<Call>)
    requires Below(q, |calls|)
    ensures |r| == |calls|
    decreases |q|
  {
    if q == [] then calls
    else RefuseAll(q[1..], if calls[q[0]] == Waiting(Pending) then calls[q[0] := Waiting(Refused)] else calls)
  }

  function Drained(s: State, value: bool): State
    requires Below(s.waiters, |s.calls|)
  {
    if value then s.(draining := true, waiters := [], calls := RefuseAll(s.waiters, s.calls))
    else s.(draining := false)
  }

  // ---- the invariant

  /** The calls that a slot is reserved for: holders, and waiters granted but not yet resumed. */
  function Owners(calls: seq<Call>): (r: set<nat>)
    ensures forall i: nat :: i in r <==> i < |calls| && (calls[i] == Holding || calls[i] == Waiting(Granted))
  {
    set i: nat | i < |calls| && (calls[i] == Holding || calls[i] == Waiting(Granted))
  }

  ghost predicate Increasing(q: seq<nat>) {
    forall i, j :: 0 <= i < j < |q| ==> q[i] < q[j]
  }

  /** The queue holds exactly the pending calls. */
  ghost predicate QueuesPending(q: seq<nat>, calls: seq<Call>) {
    forall i: nat :: i in q <==> i < |calls| && calls[i] == Waiting(Pending)
  }

  /** Bookkeeping that holds even inside release_slot: the counter counts the owners, the queue holds
      the pending calls, and slots go out in arrival order, so that the calls admitted so far followed
      by the queue are in arrival order. */
  ghost predicate Consistent(c: Config, s: State) {
    && s.active == |Owners(s.calls)| <= c.concurrency
    && |s.waiters| <= c.queueLimit && QueuesPending(s.waiters, s.calls)
    && (s.draining ==> s.waiters == [])
    && Increasing(s.admitted + s.waiters) && Below(s.admitted + s.waiters, |s.calls|) && Below(s.waiters, |s.calls|)
    && (forall i :: i in Owners(s.calls) ==> i in s.admitted)
  }

  /** Between steps the queue is moreover work-conserving. */
  ghost predicate Inv(c: Config, s: State) {
    Consistent(c, s) && (s.waiters != [] ==> s.active == c.concurrency)
  }

  lemma OwnersUpdate(calls: seq<Call>, i: nat, to: Call)
    requires i < |calls|
    ensures var owns := to == Holding || to == Waiting(Granted);
            Owners(calls[i := to]) == if owns then Owners(calls) + {i} else Owners(calls) - {i}
  {}

  lemma OwnersAppend(calls: seq<Call>, to: Call)
    ensures var owns := to == Holding || to == Waiting(Granted);
            Owners(calls + [to]) == if owns then Owners(calls) + {|calls|} else Owners(calls)
  {}

  lemma HeadMoves(a: seq<nat>, q: seq<nat>)
    requires q != [] && Increasing(a + q)
    ensures (a + [q[0]]) + q[1..] == a + q
    ensures forall i :: i in q[1..] <==> i in q && i != q[0]
  {
    forall j | 0 < j < |q| ensures q[0] < q[j] {
      assert (a + q)[|a|] == q[0] && (a + q)[|a| + j] == q[j];
    }
    forall i | i in q && i != q[0] ensures i in q[1..] {
      var j :| 0 <= j < |q| && q[j] == i;
      assert q[1..][j - 1] == i;
    }
  }

  lemma BelowConcat(a: seq<nat>, q: seq<nat>, n: nat)
    requires Below(a + q, n)
    ensures Below(a, n) && Below(q, n)
  {
    forall j | 0 <= j < |q| ensures q[j] < n {
      assert (a + q)[|a| + j] == q[j];
    }
    forall j | 0 <= j < |a| ensures a[j] < n {
      assert (a + q)[j] == a[j];
    }
  }

  /** Handing off restores the invariant. */
  lemma {:induction false} HandOffRestores(c: Config, s: State)
    requires Consistent(c, s)
    ensures Below(s.waiters, |s.calls|) && Inv(c, HandOff(c, s))
    decreases |s.waiters|
  {
    BelowConcat(s.admitted, s.waiters, |s.calls|);
    if s.waiters != [] && !s.draining && s.active < c.concurrency {
      var k := s.waiters[0];
      var t := s.(waiters := s.waiters[1..], active := s.active + 1, calls := s.calls[k := Waiting(Granted)],
          admitted := s.admitted + [k]);
      assert k in s.waiters;
      OwnersUpdate(s.calls, k, Waiting(Granted));
      HeadMoves(s.admitted, s.waiters);
      HandOffRestores(c, t);
    }
  }

  /** Giving a slot back: the calls have lost one owner, the counter not yet. */
  lemma ReleaseRestores(c: Config, s: State, i: nat)
    requires Consistent(c, s) && i in Owners(s.calls)
    ensures var over := s.(calls := s.calls[i := Over]);
            Below(over.waiters, |over.calls|) && Inv(c, Release(c, over))
  {
    OwnersUpdate(s.calls, i, Over);
    HandOffRestores(c, s.(calls := s.calls[i := Over], active := s.active - 1));
  }

  // ---- every step keeps the invariant

  datatype Event = Arrives | Resumes(i: nat) | Expires(i: nat) | Finishes(i: nat) | Drains(value: bool)

  predicate Enabled(s: State, e: Event) {
    match e
    case Arrives => true
    case Resumes(i) => i < |s.calls| && (s.calls[i] == Waiting(Granted) || s.calls[i] == Waiting(Refused))
    case Expires(i) => i < |s.calls| && s.calls[i].Waiting?
    case Finishes(i) => i < |s.calls| && s.calls[i] == Holding
    case Drains(_) => true
  }

  function Step(c: Config, s: State, e: Event): State
    requires Below(s.waiters, |s.calls|) && Enabled(s, e)
  {
    match e
    case Arrives => Arrive(c, s)
    case Resumes(i) => Deliver(c, s, i)
    case Expires(i) => Expire(c, s, i)
    case Finishes(i) => Finish(c, s, i)
    case Drains(value) => Drained(s, value)
  }

  lemma LatestLast(a: seq<nat>, q: seq<nat>, n: nat)
    requires Increasing(a + q) && Below(a + q, n)
    ensures Increasing(a + (q + [n])) && Below(a + (q + [n]), n + 1)
    ensures Below(a + q, n + 1) && Below(q + [n], n + 1) && Below(q, n + 1)
  {
    BelowConcat(a, q, n);
    assert a + (q + [n]) == (a + q) + [n];
  }

  lemma ArriveKeeps(c: Config, s: State)
    requires Inv(c, s)
    ensures Inv(c, Arrive(c, s))
  {
    var t, n := Arrive(c, s), |s.calls|;
    OwnersAppend(s.calls, t.calls[n]);
    LatestLast(s.admitted, s.waiters, n);
    assert s.waiters == [] ==> (s.admitted + [n]) + s.waiters == s.admitted + (s.waiters + [n]);
  }

  lemma ConsDrop(x: nat, t: seq<nat>, j: nat)
    requires j < |t|
    ensures [x] + (t[..j] + t[j + 1..]) == ([x] + t)[..j + 1] + ([x] + t)[j + 2..]
  {
    assert ([x] + t)[..j + 1] == [x] + t[..j] && ([x] + t)[j + 2..] == t[j + 1..];
  }

  /** The first place of a call in the queue, |q| if it has none. */
  function PlaceOf(q: seq<nat>, i: nat): (k: nat)
    ensures k <= |q| && (k < |q| ==> q[k] == i) && forall m :: 0 <= m < k ==> q[m] != i
  {
    if q == [] || q[0] == i then 0 else 1 + PlaceOf(q[1..], i)
  }

  /** The queue without a call is the queue without its place, if it has one. */
  lemma {:induction false} WithoutIsDrop(q: seq<nat>, i: nat, k: nat)
    requires k <= |q| && (k < |q| ==> q[k] == i) && forall m :: 0 <= m < k ==> q[m] != i
    ensures Without(q, i) == if k < |q| then q[..k] + q[k + 1..] else q
    decreases k
  {
    if k == 0 {
      assert q != [] ==> q[..0] + q[1..] == q[1..];
    } else {
      WithoutIsDrop(q[1..], i, k - 1);
      assert [q[0]] + q[1..] == q;
      if k < |q| {
        ConsDrop(q[0], q[1..], k - 1);
      }
    }
  }

  lemma DropKeepsOrder(a: seq<nat>, q: seq<nat>, k: nat, n: nat)
    requires k < |q| && Increasing(a + q) && Below(a + q, n)
    ensures Increasing(a + (q[..k] + q[k + 1..])) && Below(a + (q[..k] + q[k + 1..]), n)
  {
    var all, r := a + q, a + (q[..k] + q[k + 1..]);
    forall j | 0 <= j < |r| ensures r[j] == all[if j < |a| + k then j else j + 1] {}
  }

  /** Leaving the queue keeps the order of the others. */
  lemma WithoutKeepsOrder(a: seq<nat>, q: seq<nat>, i: nat, n: nat)
    requires Increasing(a + q) && Below(a + q, n)
    ensures Increasing(a + Without(q, i)) && Below(a + Without(q, i), n) && |Without(q, i)| <= |q|
  {
    var k := PlaceOf(q, i);
    WithoutIsDrop(q, i, k);
    if k < |q| {
      DropKeepsOrder(a, q, k, n);
    }
  }

  /** And removes nobody else. */
  lemma {:induction false} WithoutRemovesOne(a: seq<nat>, q: seq<nat>, i: nat)
    requires Increasing(a + q)
    ensures forall j :: j in Without(q, i) <==> j in q && j != i
    decreases |q|
  {
    if q != [] {
      HeadMoves(a, q);
      if q[0] != i {
        WithoutRemovesOne(a + [q[0]], q[1..], i);
      }
    }
  }

  lemma ExpireKeeps(c: Config, s: State, i: nat)
    requires Inv(c, s) && i < |s.calls| && s.calls[i].Waiting?
    ensures Below(s.waiters, |s.calls|) && Inv(c, Expire(c, s, i))
  {
    BelowConcat(s.admitted, s.waiters, |s.calls|);
    if s.calls[i].future == Granted {
      ReleaseRestores(c, s, i);
    } else {
      OwnersUpdate(s.calls, i, Over);
      WithoutKeepsOrder(s.admitted, s.waiters, i, |s.calls|);
      WithoutRemovesOne(s.admitted, s.waiters, i);
      BelowConcat(s.admitted, Without(s.waiters, i), |s.calls|);
    }
  }

  lemma {:induction false} RefuseAllSpec(q: seq<nat>, calls: seq<Call>)
    requires Below(q, |calls|)
    ensures forall i :: 0 <= i < |calls| ==>
              RefuseAll(q, calls)[i] == if i in q && calls[i] == Waiting(Pending) then Waiting(Refused) else calls[i]
    decreases |q|
  {
    if q != [] {
      var next := if calls[q[0]] == Waiting(Pending) then calls[q[0] := Waiting(Refused)] else calls;
      RefuseAllSpec(q[1..], next);
      assert q == [q[0]] + q[1..];
    }
  }

  lemma DrainKeeps(c: Config, s: State, value: bool)
    requires Inv(c, s)
    ensures Below(s.waiters, |s.calls|) && Inv(c, Drained(s, value))
  {
    BelowConcat(s.admitted, s.waiters, |s.calls|);
    if value {
      var t := Drained(s, value);
      RefuseAllSpec(s.waiters, s.calls);
      assert Owners(t.calls) == Owners(s.calls);
      forall j, k | 0 <= j < k < |s.admitted| ensures s.admitted[j] < s.admitted[k] {
        assert (s.admitted + s.waiters)[j] == s.admitted[j] && (s.admitted + s.waiters)[k] == s.admitted[k];
      }
      assert t.admitted + t.waiters == s.admitted;
    }
  }

  /** Conservation, bounds, FIFO order and work conservation survive every step. */
  lemma StepKeeps(c: Config, s: State, e: Event)
    requires Inv(c, s) && Enabled(s, e)
    ensures Below(s.waiters, |s.calls|) && Inv(c, Step(c, s, e))
  {
    BelowConcat(s.admitted, s.waiters, |s.calls|);
    match e {
      case Arrives => ArriveKeeps(c, s);
      case Resumes(i) =>
        if s.calls[i] == Waiting(Granted) && s.draining {
          ReleaseRestores(c, s, i);
        } else {
          OwnersUpdate(s.calls, i, if s.calls[i] == Waiting(Granted) then Holding else Over);
          assert s.calls[i] == Waiting(Granted) ==> Owners(s.calls) + {i} == Owners(s.calls);
        }
      case Expires(i) => ExpireKeeps(c, s, i);
      case Finishes(i) => ReleaseRestores(c, s, i);
      case Drains(value) => DrainKeeps(c, s, value);
    }
  }

  // ---- what each step does, in terms of the fields

  /** Call i gives back its slot: the oldest waiter gets it, if there is one and the gateway is not
      draining; otherwise it is free. */
  ghost predicate PassesOn(s: State, t: State, i: nat)
    requires i < |s.calls| && Below(s.waiters, |s.calls|)
  {
    var over := s.calls[i := Over];
    if s.draining || s.waiters == [] then t == s.(calls := over, active := s.active - 1)
    else var k := s.waiters[0];
      t == s.(calls := over[k := Waiting(Granted)], waiters := s.waiters[1..], admitted := s.admitted + [k])
  }

  lemma ReleasePassesOn(c: Config, s: State, i: nat)
    requires Inv(c, s) && i in Owners(s.calls)
    ensures Below(s.waiters, |s.calls|) && PassesOn(s, Release(c, s.(calls := s.calls[i := Over])), i)
  {
    var over := s.(calls := s.calls[i := Over], active := s.active - 1);
    BelowConcat(s.admitted, s.waiters, |s.calls|);
    if !s.draining && s.waiters != [] {
      var k := s.waiters[0];
      assert k in s.waiters && k != i;
      var t := over.(waiters := s.waiters[1..], active := s.active,
          calls := over.calls[k := Waiting(Granted)], admitted := s.admitted + [k]);
      assert HandOff(c, over) == HandOff(c, t) == t;
    }
  }

  /** An arriving call is refused at once exactly if the gateway is draining, or the call cannot take a
      slot and the queue is full; it holds a slot at once exactly if one is free; else it is the last
      in the queue. A free slot with somebody queued, which the code tests for, does not occur. */
  lemma ArrivalIff(c: Config, s: State)
    requires Inv(c, s)
    ensures var t, i := Step(c, s, Arrives), |s.calls|;
            && |t.calls| == i + 1 && t.calls[..i] == s.calls
            && (t.calls[i] == Over <==>
                  s.draining || ((s.active == c.concurrency || s.waiters != []) && |s.waiters| >= c.queueLimit))
            && (t.calls[i] == Over <==> s.draining || (s.active == c.concurrency && |s.waiters| >= c.queueLimit))
            && (t.calls[i] == Holding <==> !s.draining && s.active < c.concurrency)
            && t == (if t.calls[i] == Over then s.(calls := t.calls)
                     else if t.calls[i] == Holding then
                       s.(calls := t.calls, active := s.active + 1, admitted := s.admitted + [i])
                     else s.(calls := s.calls + [Waiting(Pending)], waiters := s.waiters + [i]))
  {
    assert (s.calls + [Over])[..|s.calls|] == s.calls;
  }

  /** An answer reaches its call. A slot granted while the gateway is draining is given back. */
  lemma ResumeIs(c: Config, s: State, i: nat)
    requires Inv(c, s) && i < |s.calls| && (s.calls[i] == Waiting(Granted) || s.calls[i] == Waiting(Refused))
    ensures Below(s.waiters, |s.calls|)
    ensures var t := Step(c, s, Resumes(i));
            if s.calls[i] == Waiting(Refused) then t == s.(calls := s.calls[i := Over])
            else if s.draining then PassesOn(s, t, i)
            else t == s.(calls := s.calls[i := Holding])
  {
    BelowConcat(s.admitted, s.waiters, |s.calls|);
    if s.calls[i] == Waiting(Granted) && s.draining {
      ReleasePassesOn(c, s, i);
    }
  }

  /** Call i was at place k of the queue and left it. */
  ghost predicate LeavesPlace(s: State, t: State, i: nat, k: nat)
    requires i < |s.calls|
  {
    && k < |s.waiters| && s.waiters[k] == i
    && t == s.(calls := s.calls[i := Over], waiters := s.waiters[..k] + s.waiters[k + 1..])
  }

  /** A call gives up waiting: a slot granted in the meantime is passed on; a pending call leaves its
      place in the queue and nothing else changes. */
  lemma ExpireIs(c: Config, s: State, i: nat)
    requires Inv(c, s) && i < |s.calls| && s.calls[i].Waiting?
    ensures Below(s.waiters, |s.calls|)
    ensures var t := Step(c, s, Expires(i));
            if s.calls[i] == Waiting(Granted) then PassesOn(s, t, i)
            else if s.calls[i] == Waiting(Refused) then t == s.(calls := s.calls[i := Over])
            else LeavesPlace(s, t, i, PlaceOf(s.waiters, i))
  {
    BelowConcat(s.admitted, s.waiters, |s.calls|);
    if s.calls[i] == Waiting(Granted) {
      ReleasePassesOn(c, s, i);
    } else {
      var k := PlaceOf(s.waiters, i);
      WithoutIsDrop(s.waiters, i, k);
      assert s.calls[i] == Waiting(Pending) <==> i in s.waiters;
    }
  }

  lemma FinishIs(c: Config, s: State, i: nat)
    requires Inv(c, s) && i < |s.calls| && s.calls[i] == Holding
    ensures Below(s.waiters, |s.calls|) && PassesOn(s, Step(c, s, Finishes(i)), i)
  {
    ReleasePassesOn(c, s, i);
  }

  /** Draining refuses exactly the pending calls; ending it changes nothing else. */
  lemma DrainIs(c: Config, s: State, value: bool)
    requires Inv(c, s)
    ensures Below(s.waiters, |s.calls|)
    ensures var t := Step(c, s, Drains(value));
            && |t.calls| == |s.calls|
            && t == s.(draining := value, waiters := if value then [] else s.waiters, calls := t.calls)
            && forall i :: 0 <= i < |s.calls| ==>
                 t.calls[i] == if value && s.calls[i] == Waiting(Pending) then Waiting(Refused) else s.calls[i]
  {
    BelowConcat(s.admitted, s.waiters, |s.calls|);
    if value {
      RefuseAllSpec(s.waiters, s.calls);
    }
  }

  // ---- whole runs

  ghost predicate IsRun(c: Config, run: seq<State>, events: seq<Event>) {
    && |run| == |events| + 1 && run[0] == INITIAL
    && forall i :: 0 <= i < |events| ==>
         Below(run[i].waiters, |run[i].calls|) && Enabled(run[i], events[i]) && run[i + 1] == Step(c, run[i], events[i])
  }

  /** The invariant holds in every state of every run. */
  lemma {:induction false} RunKeeps(c: Config, run: seq<State>, events: seq<Event>, n: nat)
    requires IsRun(c, run, events) && n < |run|
    ensures Inv(c, run[n])
  {
    if n == 0 {
      assert Owners([]) == {};
    } else {
      RunKeeps(c, run, events, n - 1);
      StepKeeps(c, run[n - 1], events[n - 1]);
    }
  }

  lemma {:induction false} HandOffOnlyGrants(c: Config, s: State)
    requires Below(s.waiters, |s.calls|)
    ensures var t := HandOff(c, s);
            && s.admitted <= t.admitted && |t.calls| == |s.calls|
            && (s.draining ==> t == s)
            && forall i :: 0 <= i < |s.calls| && t.calls[i] == Holding ==> s.calls[i] == Holding
    decreases |s.waiters|
  {
    if s.waiters != [] && !s.draining && s.active < c.concurrency {
      var k := s.waiters[0];
      var t := s.(waiters := s.waiters[1..]);
      HandOffOnlyGrants(c, if s.calls[k] == Waiting(Pending) then
                             t.(active := s.active + 1, calls := s.calls[k := Waiting(Granted)],
                                 admitted := s.admitted + [k])
                           else t);
    }
  }

  /** Admissions are never taken back or reordered; while draining, nobody becomes a holder. */
  lemma StepAdmits(c: Config, s: State, e: Event)
    requires Inv(c, s) && Enabled(s, e)
    ensures Below(s.waiters, |s.calls|)
    ensures var t := Step(c, s, e);
            && s.admitted <= t.admitted && |s.calls| <= |t.calls|
            && (s.draining ==>
                  forall i :: 0 <= i < |t.calls| && t.calls[i] == Holding ==> i < |s.calls| && s.calls[i] == Holding)
  {
    BelowConcat(s.admitted, s.waiters, |s.calls|);
    match e {
      case Arrives =>
      case Resumes(i) => HandOffOnlyGrants(c, s.(calls := s.calls[i := Over], active := s.active - 1));
      case Expires(i) => HandOffOnlyGrants(c, s.(calls := s.calls[i := Over], active := s.active - 1));
      case Finishes(i) => HandOffOnlyGrants(c, s.(calls := s.calls[i := Over], active := s.active - 1));
      case Drains(value) => RefuseAllSpec(s.waiters, s.calls);
    }
  }

  lemma {:induction false} RunAdmits(c: Config, run: seq<State>, events: seq<Event>, m: nat, n: nat)
    requires IsRun(c, run, events) && m <= n < |run|
    ensures run[m].admitted <= run[n].admitted
    decreases n
  {
    if m < n {
      RunAdmits(c, run, events, m, n - 1);
      RunKeeps(c, run, events, n - 1);
      StepAdmits(c, run[n - 1], events[n - 1]);
    }
  }

  /** From the moment draining is set until it is reset, nobody becomes a holder. */
  lemma {:induction false} RunDrains(c: Config, run: seq<State>, events: seq<Event>, m: nat, n: nat, i: nat)
    requires IsRun(c, run, events) && m <= n < |run|
    requires forall k :: m <= k < n ==> run[k].draining
    requires i < |run[n].calls| && run[n].calls[i] == Holding
    ensures i < |run[m].calls| && run[m].calls[i] == Holding
    decreases n
  {
    if m < n {
      RunKeeps(c, run, events, n - 1);
      StepAdmits(c, run[n - 1], events[n - 1]);
      RunDrains(c, run, events, m, n - 1, i);
    }
  }

  /** What holds in every state of every run. */
  lemma QueueTheorem(c: Config, run: seq<State>, events: seq<Event>, n: nat)
    requires IsRun(c, run, events) && n < |run|
    ensures var s := run[n];
            // conservation: the counter counts the holders and the granted waiters, within the limit
            && s.active == |Owners(s.calls)| && 0 <= s.active <= c.concurrency
            // once every call is over, every slot is free and nobody is queued
            && ((forall i :: 0 <= i < |s.calls| ==> s.calls[i] == Over) ==> s.active == 0 && s.waiters == [])
            // the queue is bounded and holds exactly the pending calls
            && |s.waiters| <= c.queueLimit && QueuesPending(s.waiters, s.calls)
            // work conservation: nobody waits while a slot is free
            && (s.waiters != [] ==> s.active == c.concurrency)
            // first come, first served, queued or not
            && Increasing(s.admitted) && (forall i :: i in Owners(s.calls) ==> i in s.admitted)
            && (forall a, w :: a in s.admitted && w in s.waiters ==> a < w)
  {
    RunKeeps(c, run, events, n);
    var s := run[n];
    var order := s.admitted + s.waiters;
    forall j, k | 0 <= j < k < |s.admitted| ensures s.admitted[j] < s.admitted[k] {
      assert order[j] == s.admitted[j] && order[k] == s.admitted[k];
    }
    forall a, w | a in s.admitted && w in s.waiters ensures a < w {
      var j :| 0 <= j < |s.admitted| && s.admitted[j] == a;
      var k :| 0 <= k < |s.waiters| && s.waiters[k] == w;
      assert order[j] == a && order[|s.admitted| + k] == w;
    }
    if s.waiters != [] {
      assert s.waiters[0] in s.waiters;
    }
    if forall i :: 0 <= i < |s.calls| ==> s.calls[i] == Over {
      assert Owners(s.calls) == {};
    }
  }

  // ---- the gateway object

  class Gateway {
    const config: Config
    var active: int
    var waiters: seq<nat>
    var draining: bool
    var calls: seq<Call>            // the awaiting coroutines and their futures
    ghost var admitted: seq<nat>

    ghost function View(): State
      reads this
    {
      State(active, waiters, draining, calls, admitted)
    }

    constructor (config: Config)
      ensures this.config == config && View() == INITIAL && Inv(config, View())
    {
      this.config := config;
      active, waiters, draining, calls, admitted := 0, [], false, [], [];
      assert Owners([]) == {};
    }

    method ReleaseSlot()
      requires Below(waiters, |calls|)
      modifies this
      ensures View() == Release(config, old(View()))
    {
      ghost var target := Release(config, View());
      active := active - 1;
      while waiters != [] && !draining && active < config.concurrency
        invariant Below(waiters, |calls|)
        invariant HandOff(config, View()) == target
        decreases |waiters|
      {
        var waiter := waiters[0];
        waiters := waiters[1..];
        if calls[waiter] == Waiting(Pending) {
          active := active + 1;
          calls := calls[waiter := Waiting(Granted)];
          admitted := admitted + [waiter];
        }
      }
    }

    method SetDraining(value: bool)
      requires Inv(config, View())
      modifies this
      ensures View() == Drained(old(View()), value) && Inv(config, View())
    {
      DrainKeeps(config, View(), value);
      ghost var target := Drained(View(), value).calls;
      draining := value;
      if value {
        while waiters != []
          invariant Below(waiters, |calls|) && draining && active == old(active) && admitted == old(admitted)
          invariant RefuseAll(waiters, calls) == target
          decreases |waiters|
        {
          var waiter := waiters[0];
          waiters := waiters[1..];
          if calls[waiter] == Waiting(Pending) {
            calls := calls[waiter := Waiting(Refused)];
          }
        }
      }
    }

    /** acquire_slot up to its await; the result says whether it already returned, and what. */
    method AcquireBegin() returns (returned: bool, acquired: bool)
      requires Inv(config, View())
      modifies this
      ensures View() == Arrive(config, old(View())) && Inv(config, View())
      ensures acquired <==> !old(draining) && old(active) < config.concurrency && old(waiters) == []
      ensures returned <==>
        old(draining) || old(|waiters| >= config.queueLimit) || old(active < config.concurrency && waiters == [])
      ensures waiters == if returned then old(waiters) else old(waiters) + [|old(calls)|]
      ensures active == if acquired then old(active) + 1 else old(active)
      ensures calls == old(calls) + [if acquired then Holding else if returned then Over else Waiting(Pending)]
    {
      ArriveKeeps(config, View());
      returned, acquired := true, false;
      if draining {
        calls := calls + [Over];
      } else if active < config.concurrency && waiters == [] {
        admitted := admitted + [|calls|];
        active, acquired := active + 1, true;
        calls := calls + [Holding];
      } else if |waiters| >= config.queueLimit {
        calls := calls + [Over];
      } else {
        returned := false;
        waiters := waiters + [|calls|];
        calls := calls + [Waiting(Pending)];
      }
    }

    /** waiters.remove, ignoring a missing entry. */
    method RemoveWaiter(i: nat)
      modifies `waiters
      ensures waiters == Without(old(waiters), i)
    {
      var q, j := waiters, 0;
      while j < |q| && q[j] != i
        invariant 0 <= j <= |q| && forall m :: 0 <= m < j ==> q[m] != i
      {
        j := j + 1;
      }
      WithoutIsDrop(q, i, j);
      if j < |q| {
        waiters := q[..j] + q[j + 1..];
      }
    }

    /** acquire_slot from its await on: with the future's result, or with a timeout or cancellation. */
    method AcquireResume(i: nat, expired: bool) returns (acquired: bool)
      requires Inv(config, View()) && i < |calls| && calls[i].Waiting?
      requires !expired ==> calls[i] == Waiting(Granted) || calls[i] == Waiting(Refused)
      modifies this
      ensures View() == Step(config, old(View()), if expired then Expires(i) else Resumes(i)) && Inv(config, View())
      ensures acquired <==> !expired && !old(draining) && old(calls[i]) == Waiting(Granted)
      ensures i < |calls| && calls[i] == if acquired then Holding else Over
      ensures !acquired && old(calls[i]) == Waiting(Granted) ==> old(Below(waiters, |calls|))
      ensures !acquired && old(calls[i]) == Waiting(Granted) ==> PassesOn(old(View()), View(), i)
    {
      StepKeeps(config, View(), if expired then Expires(i) else Resumes(i));
      if expired {
        ExpireIs(config, View(), i);
      } else {
        ResumeIs(config, View(), i);
      }
      var granted := calls[i].future == Granted;
      acquired := false;
      calls := calls[i := Over];
      if expired {
        if granted {
          ReleaseSlot();
        } else {
          RemoveWaiter(i);
        }
      } else if granted {
        if draining {
          ReleaseSlot();
        } else {
          acquired := true;
          calls := calls[i := Holding];
        }
      }
    }

    /** The finally block of an inference that holds a slot. */
    method FinishInference(i: nat)
      requires Inv(config, View()) && i < |calls| && calls[i] == Holding
      modifies this
      ensures View() == Finish(config, old(View()), i) && Inv(config, View())
      ensures old(Below(waiters, |calls|)) && PassesOn(old(View()), View(), i)
    {
      FinishIs(config, View(), i);
      StepKeeps(config, View(), Finishes(i));
      calls := calls[i := Over];
      ReleaseSlot();
    }
  }
}
