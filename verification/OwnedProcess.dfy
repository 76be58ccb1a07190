/**
 The owner of a child process and of the kill-on-close job it lives in. Every call into the operating
 system may fail at every point; the owner must neither lose a handle, nor close one twice, nor let the
 child run outside the job, nor call itself closed before the child is known to be gone.
 */
module OwnedProcess {
  import opened Helpers

  datatype WaitResult = Signaled | Timeout | Failed

  type Handle = nat

  /** What the operating system does. Which calls succeed, what else happens meanwhile, and what suspend counts
      are found is arbitrary but fixed: answers, exits and counts are indexed by the number of the call. The ghost
      state records the effects. */
  class Kernel {
    const answers: nat -> bool        // whether the call succeeds
    const exits: nat -> bool          // whether the child is found to have gone by itself before the call
    const counts: nat -> int          // the previous suspend count, should the call resume the thread
    const slow: nat -> bool           // whether a wait that is not satisfied times out, rather than fails
    const code: int                   // the child's exit code
    var calls: nat
    var next: nat                     // handles below this have been given out
    var exited: bool                  // the child is gone
    ghost var open: set<Handle>       // handles opened and not closed
    ghost var job: Option<Handle>     // the job, once created
    ghost var kills: bool             // the job kills its processes when its handle is closed
    ghost var created: bool           // the child exists, suspended
    ghost var inJob: bool             // the child is in the job
    ghost var running: bool           // the child's thread has been resumed
    ghost var killed: bool            // the job has been closed over the child
    ghost var terminations: nat       // attempts to terminate the child
    ghost var failures: nat           // calls that failed or timed out

    ghost predicate Sane()
      reads `open, `next, `job
    {
      && (forall h :: h in open ==> h < next)
      && (job.Some? ==> job.value < next)
    }

    constructor (answers: nat -> bool, exits: nat -> bool, counts: nat -> int, slow: nat -> bool, code: int)
      ensures Sane() && open == {} && job == None && next == 0 && failures == 0 && calls == 0
      ensures !kills && !created && !inJob && !running && !killed && !exited
      ensures this.answers == answers && this.exits == exits && this.counts == counts
      ensures this.slow == slow && this.code == code
    {
      this.answers, this.exits, this.counts, this.slow, this.code := answers, exits, counts, slow, code;
      calls, next, exited := 0, 0, false;
      open, job, failures, terminations := {}, None, 0, 0;
      kills, created, inJob, running, killed := false, false, false, false, false;
    }

    /** A call whose failure has no effect that matters here. */
    method Query() returns (ok: bool)
      modifies `calls, `failures
      ensures ok == answers(old(calls)) && calls == old(calls) + 1
      ensures failures == old(failures) + if ok then 0 else 1
    {
      ok := answers(calls);
      calls := calls + 1;
      if !ok { failures := failures + 1; }
    }

    method CreateJob() returns (h: Option<Handle>)
      requires Sane()
      modifies `calls, `open, `next, `job, `failures
      ensures Sane() && next >= old(next) && h.Some? == answers(old(calls)) && calls == old(calls) + 1
      ensures h.Some? ==> h.value !in old(open) && h.value >= old(next)
                          && open == old(open) + {h.value} && job == h && failures == old(failures)
      ensures h.None? ==> open == old(open) && job == old(job) && failures == old(failures) + 1
    {
      var ok := Query();
      h := if ok then Some(next) else None;
      if ok {
        open, next, job := open + {next}, next + 1, h;
      }
    }

    method SetKillOnClose() returns (ok: bool)
      modifies `calls, `kills, `failures
      ensures ok == answers(old(calls)) && calls == old(calls) + 1
      ensures kills == (old(kills) || ok)
      ensures failures == old(failures) + if ok then 0 else 1
    {
      ok := Query();
      kills := kills || ok;
    }

    /** CreateProcess with CREATE_SUSPENDED: a process handle and a thread handle. */
    method CreateSuspended() returns (hs: Option<(Handle, Handle)>)
      requires Sane() && !created
      modifies `calls, `open, `next, `created, `failures
      ensures Sane() && next >= old(next) && created == hs.Some? == answers(old(calls)) && calls == old(calls) + 1
      ensures hs.Some? ==> hs.value.0 != hs.value.1 && hs.value.0 >= old(next) && hs.value.1 >= old(next)
                           && open == old(open) + {hs.value.0, hs.value.1} && failures == old(failures)
      ensures hs.None? ==> open == old(open) && failures == old(failures) + 1
    {
      var ok := Query();
      hs := if ok then Some((next, next + 1)) else None;
      if ok {
        open, next, created := open + {next, next + 1}, next + 2, true;
      }
    }

    /** A failed assignment leaves it open whether the child is in the job. */
    method Assign() returns (ok: bool)
      modifies `calls, `inJob, `failures
      ensures ok == answers(old(calls)) && calls == old(calls) + 1
      ensures ok ==> inJob
      ensures failures == old(failures) + if ok then 0 else 1
    {
      ok := Query();
      var anyway: bool := *;
      inJob := inJob || ok || anyway;
    }

    method Terminate() returns (ok: bool)
      modifies `calls, `terminations, `failures
      ensures ok == answers(old(calls)) && calls == old(calls) + 1
      ensures terminations == old(terminations) + 1
      ensures failures == old(failures) + if ok then 0 else 1
    {
      ok := Query();
      terminations := terminations + 1;
    }

    /** A handle may be closed only while it is open; a failure leaves it open. */
    method Close(h: Handle) returns (ok: bool)
      requires Sane() && h in open
      modifies `calls, `open, `killed, `failures
      ensures ok == answers(old(calls)) && calls == old(calls) + 1
      ensures Sane() && open == (if ok then old(open) - {h} else old(open))
      ensures killed == (old(killed) || (ok && Some(h) == job && kills && inJob))
      ensures failures == old(failures) + if ok then 0 else 1
    {
      ok := Query();
      if ok {
        open := open - {h};
        killed := killed || (Some(h) == job && kills && inJob);
      }
    }

    /** The child may exit at any time; a wait is satisfied exactly by an exit. A null handle fails. */
    method Wait(h: Option<Handle>) returns (r: WaitResult)
      requires h.Some? ==> h.value in open && created
      modifies `calls, `exited, `failures
      ensures calls == old(calls) + 1 && (r == Signaled <==> h.Some? && answers(old(calls)))
      ensures exited == (old(exited) || exits(old(calls)) || r == Signaled)
      ensures r == Timeout <==> h.Some? && !exited && slow(old(calls))
      ensures failures == old(failures) + if r == Signaled then 0 else 1
    {
      var ok := answers(calls) && h.Some?;
      exited := exited || exits(calls) || ok;
      r := if ok then Signaled else if slow(calls) && h.Some? && !exited then Timeout else Failed;
      calls := calls + 1;
      if !ok { failures := failures + 1; }
    }

    /** The previous suspend count; 1 means that the thread now runs. A null handle fails. */
    method Resume(h: Option<Handle>) returns (count: int)
      requires h.Some? ==> h.value in open
      modifies `calls, `running, `failures
      ensures count == (if h.Some? then counts(old(calls)) else -1) && calls == old(calls) + 1
      ensures running == (old(running) || (h.Some? && 0 <= count <= 1))
      ensures failures == old(failures) + if count == 1 then 0 else 1
    {
      count := if h.Some? then counts(calls) else -1;
      running := running || 0 <= count <= 1;
      calls := calls + 1;
      if count != 1 { failures := failures + 1; }
    }
  }

  datatype Setup = Ready | Cleaned | Retained

  datatype Outcome = Finished | Refused | Raised

  class OwnedProcess {
    const kernel: Kernel
    var job: Option<Handle>
    var process: Option<Handle>
    var thread: Option<Handle>
    var resumed: bool
    var closed: bool
    var recoveryOnly: bool
    var exitCode: Option<int>

    ghost function Held(): set<Handle>
      reads `job, `process, `thread
    {
      (if job.Some? then {job.value} else {}) + (if process.Some? then {process.value} else {})
      + (if thread.Some? then {thread.value} else {})
    }

    ghost predicate Apart()
      reads `job, `process, `thread
    {
      (job.Some? ==> job != process && job != thread) && (process.Some? ==> process != thread)
    }

    /** The handles held are exactly the handles open: none lost, none closed behind the owner's back. */
    ghost predicate HandlesExact()
      reads `job, `process, `thread, kernel
    {
      kernel.Sane() && Apart() && kernel.open == Held() && (job.Some? ==> kernel.job == job)
    }

    /** A child without a process handle is known to be gone, and a thread handle is never kept alone. */
    ghost predicate ChildAccounted()
      reads `process, `thread, kernel
    {
      && (process.Some? ==> kernel.created)
      && (kernel.created && process.None? ==> kernel.exited)
      && (thread.Some? ==> process.Some?)
    }

    /** A child that may run, or does run, is in a kill-on-close job that is held or has been closed over it. */
    ghost predicate Contained()
      reads `job, `recoveryOnly, `resumed, kernel
    {
      && (kernel.running || resumed ==> !recoveryOnly)
      && (!recoveryOnly ==> kernel.created && kernel.inJob && kernel.kills && (job.Some? || kernel.killed))
    }

    ghost predicate Valid()
      reads this, kernel
    {
      && HandlesExact() && ChildAccounted() && Contained()
      && (closed ==> Held() == {})
      && (exitCode.Some? ==> kernel.exited && exitCode.value == kernel.code)
    }

    constructor (kernel: Kernel)
      requires kernel.Sane() && kernel.open == {} && kernel.job == None && !kernel.created && !kernel.running
      ensures Valid() && this.kernel == kernel
      ensures job == None && process == None && thread == None && !resumed && !closed && recoveryOnly
    {
      this.kernel := kernel;
      job, process, thread := None, None, None;
      resumed, closed, recoveryOnly := false, false, true;
      exitCode := None;
    }

    /** Closed means gone and nothing kept. */
    ghost predicate Gone()
      reads this, kernel
    {
      closed && job == None && process == None && thread == None && kernel.open == {}
      && (kernel.created ==> kernel.exited)
    }

    /** The body of __init__: every step may fail, and then everything so far is undone or kept for a retry. */
    method SetUp() returns (r: Setup)
      requires Valid() && recoveryOnly && !closed && Held() == {}
      requires !kernel.created && !kernel.running && kernel.job == None
      modifies this, kernel
      ensures Valid() && !resumed && kernel.running == old(kernel.running)
      ensures kernel.failures == old(kernel.failures) <==> r == Ready
      ensures r == Ready <==> Succeeds(old(kernel.calls), 8)
      ensures r == Ready ==> kernel.calls == old(kernel.calls) + 8
      ensures kernel.failures == old(kernel.failures) + 1 ==> r == Cleaned
      ensures r == Ready ==> !recoveryOnly && !closed && job.Some? && process.Some? && thread.Some?
      ensures r == Cleaned ==> Gone() && recoveryOnly
      ensures r == Retained ==> !closed && recoveryOnly
    {
      var ok := TrySetUp();
      if ok {
        recoveryOnly := false;
        return Ready;
      }
      var outcome := AbortSetup();
      r := if outcome == Finished then Cleaned else Retained;
    }

    /** The n calls from number c on succeed. */
    predicate Succeeds(c: nat, n: nat) {
      forall k: nat :: c <= k < c + n ==> kernel.answers(k)
    }

    method TrySetUp() returns (ok: bool)
      requires Valid() && recoveryOnly && !closed && !resumed && Held() == {}
      requires !kernel.created && !kernel.running && kernel.job == None
      modifies `job, `process, `thread, kernel
      ensures Valid() && kernel.running == old(kernel.running)
      ensures kernel.failures == old(kernel.failures) + if ok then 0 else 1
      ensures ok ==> job.Some? && process.Some? && thread.Some? && kernel.created && kernel.inJob && kernel.kills
      ensures ok <==> Succeeds(old(kernel.calls), 8)
      ensures ok ==> kernel.calls == old(kernel.calls) + 8
    {
      ok := OpenJob();
      if !ok { return; }
      ok := StartChild();
      if !ok { return; }
      ok := AssignAndIdentify();
    }

    /** The child put into the job, its times and its image read. */
    method AssignAndIdentify() returns (ok: bool)
      requires Valid() && recoveryOnly && !closed
      modifies kernel`inJob, kernel`failures, kernel`calls
      ensures Valid() && (ok ==> kernel.inJob)
      ensures kernel.failures == old(kernel.failures) + if ok then 0 else 1
      ensures ok <==> Succeeds(old(kernel.calls), 3)
      ensures ok ==> kernel.calls == old(kernel.calls) + 3
    {
      ok := kernel.Assign();
      if !ok { return; }
      ok := kernel.Query();
      if !ok { return; }
      ok := kernel.Query();
    }

    /** The job, its kill-on-close limit, and the preparation of the child's start. */
    method OpenJob() returns (ok: bool)
      requires Valid() && recoveryOnly && !closed && !resumed && Held() == {} && !kernel.created
      modifies `job, kernel`open, kernel`next, kernel`job, kernel`kills, kernel`failures, kernel`calls
      ensures Valid()
      ensures kernel.failures == old(kernel.failures) + if ok then 0 else 1
      ensures ok ==> job.Some? && kernel.kills
      ensures ok <==> Succeeds(old(kernel.calls), 3)
      ensures ok ==> kernel.calls == old(kernel.calls) + 3
    {
      job := kernel.CreateJob();
      if job.None? { return false; }
      ok := kernel.SetKillOnClose();
      if !ok { return; }
      ok := kernel.Query();
    }

    /** The child, suspended; leaving the start-up context may still fail once it exists. */
    method StartChild() returns (ok: bool)
      requires Valid() && recoveryOnly && !closed && !resumed && process == None && thread == None && job.Some?
      requires !kernel.created
      modifies `process, `thread, kernel`open, kernel`next, kernel`created, kernel`failures, kernel`calls
      ensures Valid()
      ensures kernel.failures == old(kernel.failures) + if ok then 0 else 1
      ensures ok ==> process.Some? && thread.Some? && kernel.created
      ensures ok <==> Succeeds(old(kernel.calls), 2)
      ensures ok ==> kernel.calls == old(kernel.calls) + 2
    {
      var handles := kernel.CreateSuspended();
      if handles.None? { return false; }
      process, thread := Some(handles.value.0), Some(handles.value.1);
      ok := kernel.Query();
    }

    method CloseJob() returns (ok: bool)
      requires Valid() && job.Some?
      modifies `job, kernel`open, kernel`killed, kernel`failures, kernel`calls
      ensures HandlesExact() && ChildAccounted() && Contained()
      ensures job == if ok then None else old(job)
      ensures ok == kernel.answers(old(kernel.calls)) && kernel.calls == old(kernel.calls) + 1
      ensures ok ==> kernel.killed == (old(kernel.killed) || (kernel.kills && kernel.inJob))
      ensures kernel.failures == old(kernel.failures) + if ok then 0 else 1
    {
      ok := kernel.Close(job.value);
      if ok { job := None; }
    }

    /** The thread first and the process last, so that the process handle outlives every doubt. */
    method CloseChild() returns (ok: bool)
      requires Valid() && (kernel.created ==> kernel.exited)
      modifies `thread, `process, kernel`open, kernel`killed, kernel`failures, kernel`calls
      ensures HandlesExact() && ChildAccounted() && Contained()
      ensures ok ==> thread == None && process == None
      ensures thread in {None, old(thread)} && process in {None, old(process)}
      ensures kernel.failures == old(kernel.failures) + if ok then 0 else 1
    {
      if thread.Some? {
        ok := kernel.Close(thread.value);
        if !ok { return; }
        thread := None;
      }
      if process.Some? {
        ok := kernel.Close(process.value);
        if !ok { return; }
        process := None;
      }
      ok := true;
    }

    /** Undoing a failed setup. The child may be outside the job, so it is terminated and never resumed. */
    method AbortSetup() returns (r: Outcome)
      requires Valid() && recoveryOnly && !closed
      modifies `job, `process, `thread, `closed, kernel`open, kernel`killed, kernel`exited, kernel`terminations,
               kernel`failures, kernel`calls
      ensures Valid() && recoveryOnly && kernel.running == old(kernel.running) && kernel.created == old(kernel.created)
      ensures r == if closed then Finished else Raised
      ensures job in {None, old(job)} && process in {None, old(process)} && thread in {None, old(thread)}
      ensures kernel.failures >= old(kernel.failures) && (kernel.failures == old(kernel.failures) ==> closed)
      ensures kernel.terminations == old(kernel.terminations) + if old(process).Some? then 1 else 0
    {
      var ok := StopChild();
      if !ok { return Raised; }
      ok := CloseChild();
      if !ok { return Raised; }
      closed := true;
      r := Finished;
    }

    /** Terminate, close the job, and see the child gone: every step is tried, whatever failed before. */
    method StopChild() returns (ok: bool)
      requires Valid() && recoveryOnly && !closed
      modifies `job, kernel`open, kernel`killed, kernel`exited, kernel`terminations, kernel`failures, kernel`calls
      ensures Valid() && job in {None, old(job)}
      ensures ok ==> job == None && (kernel.created ==> kernel.exited)
      ensures kernel.failures >= old(kernel.failures) && (ok <==> kernel.failures == old(kernel.failures))
      ensures kernel.terminations == old(kernel.terminations) + if process.Some? then 1 else 0
    {
      var errors := 0;
      if process.Some? {
        var done := kernel.Terminate();
        if !done { errors := errors + 1; }
      }
      if job.Some? {
        var done := CloseJob();
        if !done { errors := errors + 1; }
      }
      if process.Some? {
        var w := kernel.Wait(process);
        if w != Signaled { errors := errors + 1; }
      }
      ok := errors == 0;
    }

    /** Refused on a closed owner; true for an exit that is seen, false for one that is not seen in time, and
        raised for nothing but a wait that failed. */
    method Wait() returns (r: Outcome, exited: bool)
      requires Valid()
      modifies kernel`exited, kernel`failures, kernel`calls
      ensures Valid() && (closed <==> r == Refused)
      ensures exited ==> r == Finished && kernel.exited && process.Some?
      ensures r == Finished ==> exited == kernel.exited
      ensures !closed ==> kernel.calls == old(kernel.calls) + 1
      ensures !closed ==> (exited <==> process.Some? && kernel.answers(old(kernel.calls)))
      ensures !closed ==> (r == Finished && !exited <==>
                             process.Some? && !kernel.exited && kernel.slow(old(kernel.calls)))
      ensures closed ==> kernel.calls == old(kernel.calls) && kernel.exited == old(kernel.exited)
      ensures old(kernel.exited) ==> kernel.exited
      ensures kernel.failures == old(kernel.failures) + if closed || exited then 0 else 1
    {
      if closed { return Refused, false; }
      var w := kernel.Wait(process);
      match w
      case Signaled => return Finished, true;
      case Timeout => return Finished, false;
      case Failed => return Raised, false;
    }

    /** The exit code is remembered only after the exit has been seen, and closing keeps it. */
    method ExitCode() returns (r: Outcome, code: Option<int>)
      requires Valid()
      modifies `exitCode, kernel`exited, kernel`failures, kernel`calls
      ensures Valid() && (old(kernel.exited) ==> kernel.exited)
      ensures closed ==> r == Finished && code == old(exitCode) && exitCode == old(exitCode)
                         && kernel.failures == old(kernel.failures)
      ensures !closed && code.Some? ==> r == Finished && kernel.exited && exitCode == code == Some(kernel.code)
      ensures code == None ==> exitCode == old(exitCode)
      ensures r != Refused && (!closed && r == Finished && kernel.exited ==> code.Some?)
      ensures r == Raised ==> kernel.failures > old(kernel.failures)
      ensures kernel.failures >= old(kernel.failures)
    {
      if closed { return Finished, exitCode; }
      var w, exited := Wait();
      if w == Raised { return Raised, None; }
      if !exited { return Finished, None; }
      var ok := kernel.Query();
      if !ok { return Raised, None; }
      exitCode := Some(kernel.code);
      return Finished, exitCode;
    }

    /** A child that may be outside the job is terminated, or else must be gone already. */
    method TerminateUnassigned() returns (ok: bool)
      requires Valid() && !closed
      modifies kernel`exited, kernel`terminations, kernel`failures, kernel`calls
      ensures Valid() && (old(kernel.exited) ==> kernel.exited)
      ensures kernel.failures >= old(kernel.failures) && (!ok ==> kernel.failures > old(kernel.failures))
      ensures kernel.terminations == old(kernel.terminations) + if recoveryOnly && process.Some? then 1 else 0
      ensures !recoveryOnly ==> ok && kernel.calls == old(kernel.calls)
    {
      if !recoveryOnly || process.None? { return true; }
      ok := kernel.Terminate();
      if !ok {
        var w;
        w, ok := Wait();
      }
    }

    /** The exit is confirmed and its code read. */
    method ConfirmExit() returns (ok: bool)
      requires Valid() && !closed
      modifies `exitCode, kernel`exited, kernel`failures, kernel`calls
      ensures Valid() && (ok && kernel.created ==> kernel.exited)
      ensures ok && process.Some? ==> exitCode.Some?
      ensures process.Some? && !kernel.answers(old(kernel.calls)) ==> !ok && kernel.calls == old(kernel.calls) + 1
      ensures kernel.failures >= old(kernel.failures) && (!ok ==> kernel.failures > old(kernel.failures))
    {
      if process.None? { return true; }
      var w, exited := Wait();
      if !exited { return false; }
      var e, code := ExitCode();
      ok := e != Raised;
    }

    /** Closing finishes or keeps what it could not close; if no call fails it finishes, from every state that any
        earlier failure left behind. */
    method Close() returns (r: Outcome)
      requires Valid()
      modifies `job, `process, `thread, `closed, `exitCode, kernel`open, kernel`killed, kernel`exited,
               kernel`terminations, kernel`failures, kernel`calls
      ensures Valid()
      ensures r == if closed then Finished else Raised
      ensures closed ==> Gone()
      ensures job in {None, old(job)} && process in {None, old(process)} && thread in {None, old(thread)}
      ensures old(closed) ==> closed && kernel.failures == old(kernel.failures) && exitCode == old(exitCode)
      ensures closed && !old(closed) && old(process).Some? ==> exitCode.Some?
      ensures kernel.failures == old(kernel.failures) ==> closed
      // the job is given up exactly if its handle could be closed, and if the exit is not confirmed the child's
      // handles are kept: closing may stop half-way
      ensures !old(closed) && !recoveryOnly && old(job).Some? ==> (job == None <==> kernel.answers(old(kernel.calls)))
      ensures !old(closed) && !recoveryOnly && old(job).Some? && old(process).Some?
              && kernel.answers(old(kernel.calls)) && !kernel.answers(old(kernel.calls) + 1) ==>
                r == Raised && process == old(process) && thread == old(thread) && kernel.calls == old(kernel.calls) + 2
      // a child that may be outside the job is terminated by its own handle
      ensures kernel.terminations == old(kernel.terminations) +
                if !old(closed) && recoveryOnly && old(process).Some? then 1 else 0
    {
      if closed { return Finished; }
      var ok := TerminateUnassigned();
      if !ok { return Raised; }
      ok := GiveUpJob();
      if !ok { return Raised; }
      ok := CloseChild();
      if !ok { return Raised; }
      closed := true;
      r := Finished;
    }

    /** The job closed, the exit confirmed. */
    method GiveUpJob() returns (ok: bool)
      requires Valid() && !closed
      modifies `job, `exitCode, kernel`open, kernel`killed, kernel`exited, kernel`failures, kernel`calls
      ensures Valid() && job in {None, old(job)}
      ensures ok ==> job == None && (kernel.created ==> kernel.exited) && (process.Some? ==> exitCode.Some?)
      ensures kernel.failures >= old(kernel.failures) && (!ok ==> kernel.failures > old(kernel.failures))
      ensures old(job).Some? ==> (job == None <==> kernel.answers(old(kernel.calls)))
      ensures old(job).Some? && process.Some?
              && kernel.answers(old(kernel.calls)) && !kernel.answers(old(kernel.calls) + 1) ==>
                !ok && kernel.calls == old(kernel.calls) + 2
    {
      if job.Some? {
        ok := CloseJob();
        if !ok { return; }
      }
      ok := ConfirmExit();
    }

    /** The child is started only if setup completed, so only inside the job; anything but a suspend count of one
        closes the owner or leaves it to be closed. */
    method Resume() returns (r: Outcome)
      requires Valid()
      modifies this, kernel
      ensures Valid() && recoveryOnly == old(recoveryOnly)
      ensures r == Refused <==> old(closed || resumed || recoveryOnly)
      ensures r == Refused ==>
                kernel.running == old(kernel.running) && resumed == old(resumed) && kernel.open == old(kernel.open)
      ensures !old(closed || resumed || recoveryOnly) ==>
                (r == Finished <==> old(thread).Some? && kernel.counts(old(kernel.calls)) == 1)
      ensures r == Finished ==> !closed && resumed && kernel.running && kernel.inJob && kernel.kills
      // a child resumed runs in a held job if and only if the job's handle was still there; otherwise in one
      // already closed over it
      ensures r == Finished ==> job == old(job) && (job.Some? <==> old(job).Some?) && (job == None ==> kernel.killed)
      ensures r == Raised ==> !resumed && (closed ==> Gone())
      // and the owner is closed, unless closing it failed as well
      ensures r == Raised && kernel.failures == old(kernel.failures) + 1 ==> closed
    {
      if closed || resumed || recoveryOnly { return Refused; }
      var count := kernel.Resume(thread);
      if count != 1 {
        var c := Close();
        return Raised;
      }
      resumed := true;
      r := Finished;
    }
  }

  /** Any use of an owner: set up once, then calls in any order, with any failures, and closes repeated as long as
      the caller likes. */
  method Life(answers: nat -> bool, exits: nat -> bool, counts: nat -> int, slow: nat -> bool, code: int,
      calls: seq<nat>)
      returns (kernel: Kernel, owner: OwnedProcess, setup: Setup)
    ensures owner.kernel == kernel && owner.Valid()
    ensures kernel.running ==> setup == Ready && kernel.inJob && kernel.kills && (owner.job.Some? || kernel.killed)
    ensures owner.closed ==> owner.Gone()
    ensures owner.exitCode.Some? ==> kernel.exited && owner.exitCode == Some(code)
  {
    kernel := new Kernel(answers, exits, counts, slow, code);
    owner := new OwnedProcess(kernel);
    setup := owner.SetUp();
    for i := 0 to |calls|
      invariant owner.Valid() && (setup == Ready <==> !owner.recoveryOnly)
    {
      match calls[i] {
        case 0 => var r := owner.Resume();
        case 1 => var r, b := owner.Wait();
        case 2 => var r, c := owner.ExitCode();
        case _ => var r := owner.Close();
      }
    }
  }

  /** A resume after a close that got past the job and no further: the child is started although the job is gone. */
  method CloseThenResume(owner: OwnedProcess)
    requires owner.Valid() && !owner.closed && !owner.resumed && !owner.recoveryOnly
    requires owner.job.Some? && owner.process.Some? && owner.thread.Some?
    requires var (k, c) := (owner.kernel, owner.kernel.calls); k.answers(c) && !k.answers(c + 1) && k.counts(c + 2) == 1
    modifies owner, owner.kernel
    ensures owner.Valid() && owner.resumed && !owner.closed && owner.kernel.running
    ensures owner.job == None && owner.kernel.killed
  {
    var closed := owner.Close();
    var resumed := owner.Resume();
  }

  /** And there is such an owner. */
  method ResumeAfterHalfClose() returns (owner: OwnedProcess)
    ensures owner.Valid() && owner.resumed && !owner.closed && owner.kernel.running
    ensures owner.job == None && owner.kernel.killed
  {
    var kernel := new Kernel(k => k != 9, k => false, k => 1, k => false, 0);
    owner := new OwnedProcess(kernel);
    var setup := owner.SetUp();
    assert owner.Succeeds(0, 8);
    CloseThenResume(owner);
  }
}
