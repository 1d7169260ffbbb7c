/**
 * How a pull can end, by what its workers met: which exception leaves the thread pool, when the
 * single-stream download takes over, and when neither happens.
 */
module PullEndings {
  import opened Storage
  import opened Transfer
  import opened PullSystem
  import Worker = ChunkWorker
  import Single = SingleStream

  /** Some worker gave up and none was refused its range. */
  predicate SomeGaveUp(workers: seq<Worker.Worker>) {
    && AllFinished(workers)
    && (exists i | 0 <= i < |workers| :: workers[i] == Worker.Finished(Worker.GaveUp))
    && (forall i | 0 <= i < |workers| :: workers[i] != Worker.Finished(Worker.NotHonored))
  }

  /** Some worker was refused its range and none gave up. */
  predicate SomeNotHonored(workers: seq<Worker.Worker>) {
    && AllFinished(workers)
    && (exists i | 0 <= i < |workers| :: workers[i] == Worker.Finished(Worker.NotHonored))
    && (forall i | 0 <= i < |workers| :: workers[i] != Worker.Finished(Worker.GaveUp))
  }

  predicate NoNewPull(trace: seq<SysEvent>, pid: nat) {
    forall e | e in trace :: !(e.Begin? && e.pid == pid)
  }

  /** Nothing of the process's own interrupts it or fails on disk. */
  predicate Undisturbed(trace: seq<SysEvent>, pid: nat) {
    forall e | e in trace && e.Act? && e.pid == pid :: e.action != Interrupt && e.action != Fail
  }

  lemma {:induction false} ProcStays(job: Job, s: Sys, trace: seq<SysEvent>, pid: nat)
    requires pid in s.procs
    ensures pid in Run(job, s, trace).procs
  {
    ProcsPersist(job, s, trace, pid);
  }

  // ---------------------------------------------------------------- a worker gave up

  predicate Raising(pc: Pc) {
    || (pc.Fetching? && SomeGaveUp(pc.workers))
    || (pc.Cleaning? && (pc.after.Raise? || pc.after.Abort?))
    || pc == Done(Single.Failed) || pc == Done(Single.Interrupted)
  }

  /**
   * A pull whose workers have all finished, some having given up and none refused its range, never
   * returns and never turns to the single-stream download: it raises, or is interrupted.
   */
  lemma {:induction false} GivenUpPullRaises(job: Job, s: Sys, pid: nat, trace: seq<SysEvent>)
    requires pid in s.procs && s.procs[pid].pc.Fetching? && SomeGaveUp(s.procs[pid].pc.workers)
    requires NoNewPull(trace, pid)
    ensures var t := Run(job, s, trace);
            && pid in t.procs && Raising(t.procs[pid].pc) && !t.procs[pid].pc.Streaming?
            && (t.procs[pid].pc.Done? ==> !t.procs[pid].pc.result.Returned?)
  {
    if trace != [] {
      var before, e := trace[..|trace| - 1], trace[|trace| - 1];
      assert e in trace;
      GivenUpPullRaises(job, s, pid, before);
      RaisingStays(job, Run(job, s, before), pid, e);
    }
  }

  lemma RaisingStays(job: Job, s: Sys, pid: nat, e: SysEvent)
    requires pid in s.procs && Raising(s.procs[pid].pc) && !(e.Begin? && e.pid == pid)
    ensures var t := Next(job, s, e); pid in t.procs && Raising(t.procs[pid].pc)
  {
    if e.Act? && e.pid == pid && s.procs[pid].alive && s.procs[pid].pc.Fetching? {
      var workers := s.procs[pid].pc.workers;
      if e.action.Work? && e.action.i < |workers| {
        assert workers[e.action.i].Finished?;
        assert workers[e.action.i := workers[e.action.i]] == workers;
      }
    }
  }

  // ---------------------------------------------------------------- a range was refused

  predicate FallingBack(pc: Pc) {
    || (pc.Fetching? && SomeNotHonored(pc.workers))
    || (pc.Cleaning? && pc.after.FallBack?)
    || ((pc.Reaping? || pc.Unlinking?) && pc.plan.Streamed?)
    || pc.Streaming?
  }

  /**
   * A pull whose workers have all finished, some refused their range and none having given up, ends only
   * by way of the single-stream download, unless it is interrupted.
   */
  lemma {:induction false} RefusedPullFallsBack(job: Job, s: Sys, pid: nat, trace: seq<SysEvent>)
    requires pid in s.procs && s.procs[pid].pc.Fetching? && SomeNotHonored(s.procs[pid].pc.workers)
    requires NoNewPull(trace, pid) && Undisturbed(trace, pid)
    requires forall k | 0 <= k <= |trace| ::
               var t := Run(job, s, trace[..k]); pid in t.procs ==> !t.procs[pid].pc.Streaming?
    ensures var t := Run(job, s, trace); pid in t.procs && FallingBack(t.procs[pid].pc)
  {
    assert trace[..|trace|] == trace;
    if trace != [] {
      var before, e := trace[..|trace| - 1], trace[|trace| - 1];
      assert e in trace;
      assert forall k | 0 <= k <= |before| :: trace[..k] == before[..k];
      RefusedPullFallsBack(job, s, pid, before);
      FallingBackStays(job, Run(job, s, before), pid, e);
    }
  }

  lemma FallingBackStays(job: Job, s: Sys, pid: nat, e: SysEvent)
    requires pid in s.procs && FallingBack(s.procs[pid].pc) && !s.procs[pid].pc.Streaming?
    requires !(e.Begin? && e.pid == pid)
    requires e.Act? && e.pid == pid ==> e.action != Interrupt && e.action != Fail
    ensures var t := Next(job, s, e); pid in t.procs && FallingBack(t.procs[pid].pc)
  {
    if e.Act? && e.pid == pid && s.procs[pid].alive && s.procs[pid].pc.Fetching? {
      var workers := s.procs[pid].pc.workers;
      if e.action.Work? && e.action.i < |workers| {
        assert workers[e.action.i].Finished?;
        assert workers[e.action.i := workers[e.action.i]] == workers;
      }
    }
  }

  // ---------------------------------------------------------------- every range was fetched

  predicate Delivering(pc: Pc) {
    || (pc.Fetching? && AllFetched(pc.workers))
    || pc.Opening? || pc.Joining? || pc.Replacing?
    || (pc.Cleaning? && pc.after.Return?)
    || (pc.Done? && pc.result.Returned?)
  }

  /** A pull that has fetched all its ranges ends in a return, unless it is interrupted or the disk fails it. */
  lemma {:induction false} FetchedPullReturns(job: Job, s: Sys, pid: nat, trace: seq<SysEvent>)
    requires pid in s.procs && s.procs[pid].pc.Fetching? && AllFetched(s.procs[pid].pc.workers)
    requires NoNewPull(trace, pid) && Undisturbed(trace, pid)
    ensures var t := Run(job, s, trace);
            && pid in t.procs && Delivering(t.procs[pid].pc)
            && (t.procs[pid].pc.Done? ==> t.procs[pid].pc.result.Returned?)
  {
    if trace != [] {
      var before, e := trace[..|trace| - 1], trace[|trace| - 1];
      assert e in trace;
      FetchedPullReturns(job, s, pid, before);
      DeliveringStays(job, Run(job, s, before), pid, e);
    }
  }

  lemma DeliveringStays(job: Job, s: Sys, pid: nat, e: SysEvent)
    requires pid in s.procs && Delivering(s.procs[pid].pc) && !(e.Begin? && e.pid == pid)
    requires e.Act? && e.pid == pid ==> e.action != Interrupt && e.action != Fail
    ensures var t := Next(job, s, e); pid in t.procs && Delivering(t.procs[pid].pc)
  {
    if e.Act? && e.pid == pid && s.procs[pid].alive && s.procs[pid].pc.Fetching? {
      var workers := s.procs[pid].pc.workers;
      if e.action.Work? && e.action.i < |workers| {
        assert workers[e.action.i := workers[e.action.i]] == workers;
      }
    }
  }

  // ---------------------------------------------------------------- where the fall-back comes from

  /** At event `k` a worker of the process was about to ask for its range and was answered 200. */
  predicate AnsweredWhole(job: Job, s: Sys, trace: seq<SysEvent>, pid: nat, k: nat)
    requires k < |trace|
  {
    var t := Run(job, s, trace[..k]);
    && trace[k].Act? && trace[k].pid == pid && trace[k].action.Work? && trace[k].action.event == Ask(Whole)
    && pid in t.procs && t.procs[pid].pc.Fetching?
    && trace[k].action.i < |t.procs[pid].pc.workers| && t.procs[pid].pc.workers[trace[k].action.i].Ready?
  }

  predicate SomeAnsweredWhole(job: Job, s: Sys, trace: seq<SysEvent>, pid: nat) {
    exists k | 0 <= k < |trace| :: AnsweredWhole(job, s, trace, pid, k)
  }

  /** On its way from a chunked plan; a refused range or its consequences are only there after a 200. */
  predicate Chunking(pc: Pc, answered: bool) {
    match pc
    case Idle => false
    case Reaping(_, plan) => plan.Chunked? || answered
    case Unlinking(_, _, plan) => plan.Chunked? || answered
    case Fetching(_, workers) =>
      (exists i | 0 <= i < |workers| :: workers[i] == Worker.Finished(Worker.NotHonored)) ==> answered
    case Cleaning(_, _, after) => after.FallBack? ==> answered
    case Streaming(_) => answered
    case _ => true
  }

  lemma ChunkingStep(job: Job, s: Sys, pid: nat, e: SysEvent, answered: bool)
    requires pid in s.procs && Chunking(s.procs[pid].pc, answered) && !(e.Begin? && e.pid == pid)
    ensures var t := Next(job, s, e);
            && pid in t.procs
            && (Chunking(t.procs[pid].pc, answered)
                || (Chunking(t.procs[pid].pc, true) && AnsweredWhole(job, s, [e], pid, 0)))
  {
    assert [e][..0] == [];
    var p := s.procs[pid];
    if e.Act? && e.pid == pid && p.alive && p.pc.Fetching? {
      ChunkingFetch(job, s, pid, e, answered);
    }
  }

  lemma ChunkingFetch(job: Job, s: Sys, pid: nat, e: SysEvent, answered: bool)
    requires Alive(s.procs, pid) && s.procs[pid].pc.Fetching? && Chunking(s.procs[pid].pc, answered)
    requires e.Act? && e.pid == pid
    ensures var t := Next(job, s, e);
            && pid in t.procs
            && (Chunking(t.procs[pid].pc, answered)
                || (Chunking(t.procs[pid].pc, true) && AnsweredWhole(job, s, [e], pid, 0)))
  {
    assert [e][..0] == [];
    var p := s.procs[pid];
    if e.action.Work? && e.action.i < |p.pc.workers| {
      var w := p.pc.workers[e.action.i];
      if !answered && !(w.Ready? && e.action.event == Ask(Whole)) {
        var t := Next(job, s, e).procs[pid].pc;
        forall i | 0 <= i < |t.workers|
          ensures t.workers[i] != Worker.Finished(Worker.NotHonored)
        {
          assert i != e.action.i ==> t.workers[i] == p.pc.workers[i];
        }
      }
    }
  }

  /** A chunked pull turns to the single-stream download only after some worker of it was answered 200. */
  lemma {:induction false} FallsBackOnlyOn200(job: Job, s: Sys, pid: nat, par: int, trace: seq<SysEvent>)
    requires Alive(s.procs, pid) && MayBegin(s.procs[pid].pc) && NoNewPull(trace, pid)
    ensures var b := Next(job, s, Begin(pid, Chunked(par)));
            var t := Run(job, b, trace);
            && pid in t.procs && Chunking(t.procs[pid].pc, SomeAnsweredWhole(job, b, trace, pid))
            && (t.procs[pid].pc.Streaming? ==> SomeAnsweredWhole(job, b, trace, pid))
  {
    var b := Next(job, s, Begin(pid, Chunked(par)));
    if trace != [] {
      var before, e := trace[..|trace| - 1], trace[|trace| - 1];
      assert e in trace;
      FallsBackOnlyOn200(job, s, pid, par, before);
      var answered := SomeAnsweredWhole(job, b, before, pid);
      ChunkingStep(job, Run(job, b, before), pid, e, answered);
      AnsweredSnoc(job, b, before, e, pid);
      assert trace == before + [e];
    }
  }

  lemma AnsweredSnoc(job: Job, s: Sys, before: seq<SysEvent>, e: SysEvent, pid: nat)
    ensures SomeAnsweredWhole(job, s, before, pid) ==> SomeAnsweredWhole(job, s, before + [e], pid)
    ensures AnsweredWhole(job, Run(job, s, before), [e], pid, 0) ==> SomeAnsweredWhole(job, s, before + [e], pid)
  {
    var trace := before + [e];
    if k :| 0 <= k < |before| && AnsweredWhole(job, s, before, pid, k) {
      assert trace[..k] == before[..k];
      assert AnsweredWhole(job, s, trace, pid, k);
    }
    if AnsweredWhole(job, Run(job, s, before), [e], pid, 0) {
      assert [e][..0] == [] && trace[..|before|] == before;
      assert AnsweredWhole(job, s, trace, pid, |before|);
    }
  }

  // ---------------------------------------------------------------- every other ending has its cause

  /** Why a pull may raise: some worker gave up, the disk failed, or the single-stream download gave up. */
  predicate Troubled(pc: Pc, e: SysEvent, pid: nat) {
    || (pc.Fetching? && exists i | 0 <= i < |pc.workers| :: pc.workers[i] == Worker.Finished(Worker.GaveUp))
    || (e.Act? && e.pid == pid && e.action == Fail)
    || pc == Streaming(Single.Dropping)
  }

  predicate Interrupts(e: SysEvent, pid: nat) {
    e.Act? && e.pid == pid && (e.action == Interrupt || e.action == Stream(Single.Interrupt))
  }

  predicate HadTrouble(job: Job, s: Sys, trace: seq<SysEvent>, pid: nat) {
    exists k | 0 <= k < |trace| ::
      var t := Run(job, s, trace[..k]); pid in t.procs && Troubled(t.procs[pid].pc, trace[k], pid)
  }

  predicate HadInterrupt(trace: seq<SysEvent>, pid: nat) {
    exists e | e in trace :: Interrupts(e, pid)
  }

  /** A pull on its way, or ended in a way that is accounted for. */
  predicate Accounted(pc: Pc, trouble: bool, interrupted: bool) {
    match pc
    case Cleaning(_, _, after) => (after.Raise? ==> trouble) && (after.Abort? ==> interrupted)
    case Streaming(stage) => !stage.Ended?
    case Done(result) => (result.Failed? ==> trouble) && (result.Interrupted? ==> interrupted)
    case _ => true
  }

  lemma AccountedStep(job: Job, s: Sys, pid: nat, e: SysEvent, trouble: bool, interrupted: bool)
    requires pid in s.procs && Accounted(s.procs[pid].pc, trouble, interrupted)
    ensures var t := Next(job, s, e);
            && pid in t.procs
            && Accounted(t.procs[pid].pc, trouble || Troubled(s.procs[pid].pc, e, pid),
                         interrupted || Interrupts(e, pid))
  {
    if e.Act? && e.pid == pid && s.procs[pid].alive {
      var pc := s.procs[pid].pc;
      if pc.Fetching? {
        FetchAccounted(job, s, pid, e, trouble, interrupted);
      } else if pc.Streaming? {
        StreamAccounted(job, s, pid, e, trouble, interrupted);
      }
    }
  }

  lemma FetchAccounted(job: Job, s: Sys, pid: nat, e: SysEvent, trouble: bool, interrupted: bool)
    requires Alive(s.procs, pid) && s.procs[pid].pc.Fetching? && e.Act? && e.pid == pid
    ensures Accounted(Next(job, s, e).procs[pid].pc, trouble || Troubled(s.procs[pid].pc, e, pid),
                      interrupted || Interrupts(e, pid))
  {
    var workers := s.procs[pid].pc.workers;
    if e.action.Propagate? && e.action.i < |workers| && AllFinished(workers) {
      assert workers[e.action.i].Finished?;
    }
  }

  lemma StreamAccounted(job: Job, s: Sys, pid: nat, e: SysEvent, trouble: bool, interrupted: bool)
    requires Alive(s.procs, pid) && s.procs[pid].pc.Streaming? && !s.procs[pid].pc.stage.Ended?
    requires e.Act? && e.pid == pid
    ensures Accounted(Next(job, s, e).procs[pid].pc, trouble || Troubled(s.procs[pid].pc, e, pid),
                      interrupted || Interrupts(e, pid))
  {
  }

  lemma {:induction false} AccountedRun(job: Job, b: Sys, pid: nat, trace: seq<SysEvent>, t: Sys)
    requires pid in b.procs && Accounted(b.procs[pid].pc, false, false) && t == Run(job, b, trace)
    ensures AccountedAt(job, b, trace, pid, t)
    decreases |trace|
  {
    if trace == [] {
      AccountedMore(b.procs[pid].pc, false, false, HadTrouble(job, b, trace, pid), HadInterrupt(trace, pid));
    } else {
      var before, e := trace[..|trace| - 1], trace[|trace| - 1];
      var r := Run(job, b, before);
      AccountedRun(job, b, pid, before, r);
      AccountedOneMore(job, b, r, pid, before, e);
      assert trace == before + [e];
    }
  }

  predicate AccountedAt(job: Job, b: Sys, trace: seq<SysEvent>, pid: nat, t: Sys) {
    pid in t.procs && Accounted(t.procs[pid].pc, HadTrouble(job, b, trace, pid), HadInterrupt(trace, pid))
  }

  lemma AccountedOneMore(job: Job, b: Sys, r: Sys, pid: nat, before: seq<SysEvent>, e: SysEvent)
    requires r == Run(job, b, before) && AccountedAt(job, b, before, pid, r)
    ensures AccountedAt(job, b, before + [e], pid, Next(job, r, e))
  {
    var trouble, interrupted := HadTrouble(job, b, before, pid), HadInterrupt(before, pid);
    AccountedStep(job, r, pid, e, trouble, interrupted);
    TroubleSnoc(job, b, before, e, pid);
    AccountedMore(Next(job, r, e).procs[pid].pc, trouble || Troubled(r.procs[pid].pc, e, pid),
                  interrupted || Interrupts(e, pid),
                  HadTrouble(job, b, before + [e], pid), HadInterrupt(before + [e], pid));
  }

  /**
   * A pull raises only if some worker of it gave up, the disk failed it, or its single-stream download
   * gave up; and it ends interrupted only if an interrupt arrived.
   */
  lemma EndingsHaveCauses(job: Job, s: Sys, pid: nat, plan: Plan, trace: seq<SysEvent>)
    requires Alive(s.procs, pid) && MayBegin(s.procs[pid].pc)
    ensures var b := Next(job, s, Begin(pid, plan));
            AccountedAt(job, b, trace, pid, Run(job, b, trace))
  {
    var b := Next(job, s, Begin(pid, plan));
    AccountedRun(job, b, pid, trace, Run(job, b, trace));
  }

  lemma AccountedMore(pc: Pc, trouble: bool, interrupted: bool, trouble': bool, interrupted': bool)
    requires Accounted(pc, trouble, interrupted) && (trouble ==> trouble') && (interrupted ==> interrupted')
    ensures Accounted(pc, trouble', interrupted')
  {
  }

  lemma TroubleSnoc(job: Job, s: Sys, before: seq<SysEvent>, e: SysEvent, pid: nat)
    requires pid in Run(job, s, before).procs
    ensures HadTrouble(job, s, before, pid) || Troubled(Run(job, s, before).procs[pid].pc, e, pid) ==>
              HadTrouble(job, s, before + [e], pid)
    ensures HadInterrupt(before, pid) || Interrupts(e, pid) ==> HadInterrupt(before + [e], pid)
  {
    var trace := before + [e];
    assert trace[..|before|] == before && trace[|before|] == e && e in trace;
    assert forall x | x in before :: x in trace;
    assert forall k | 0 <= k < |before| :: trace[..k] == before[..k] && trace[k] == before[k];
    if Troubled(Run(job, s, before).procs[pid].pc, e, pid) {
      assert Troubled(Run(job, s, trace[..|before|]).procs[pid].pc, trace[|before|], pid);
    }
  }

  // ---------------------------------------------------------------- the beginning, and the world around

  /**
   * Whatever parts of its own a pull finds on disk: when it starts to fetch, none of the parts
   * that it will fetch into is left.
   */
  lemma {:induction false} FetchesIntoNothing(job: Job, b: Sys, pid: nat, trace: seq<SysEvent>)
    requires pid in b.procs && b.procs[pid].pc.Reaping? && NoNewPull(trace, pid)
    ensures var t := Run(job, b, trace); pid in t.procs
    ensures var t := Run(job, b, trace);
            t.procs[pid].pc.PreCleaning? ==> forall j: nat | j < t.procs[pid].pc.i :: Part(pid, j) !in t.disk
    ensures var t := Run(job, b, trace);
            trace != [] && t.procs[pid].pc.Fetching? && !Fetches(job, b, trace[..|trace| - 1], pid) ==>
              forall j: nat | j < |t.procs[pid].pc.workers| :: Part(pid, j) !in t.disk
  {
    if trace != [] {
      var before, e := trace[..|trace| - 1], trace[|trace| - 1];
      assert e in trace;
      FetchesIntoNothing(job, b, pid, before);
      PreCleanGoesOn(job, Run(job, b, before), pid, e);
    }
  }

  predicate Fetches(job: Job, b: Sys, trace: seq<SysEvent>, pid: nat) {
    var t := Run(job, b, trace); pid in t.procs && t.procs[pid].pc.Fetching?
  }

  lemma PreCleanGoesOn(job: Job, s: Sys, pid: nat, e: SysEvent)
    requires pid in s.procs && !(e.Begin? && e.pid == pid)
    requires s.procs[pid].pc.PreCleaning? ==> forall j: nat | j < s.procs[pid].pc.i :: Part(pid, j) !in s.disk
    ensures var t := Next(job, s, e);
            && pid in t.procs
            && (t.procs[pid].pc.PreCleaning? ==> forall j: nat | j < t.procs[pid].pc.i :: Part(pid, j) !in t.disk)
            && (t.procs[pid].pc.Fetching? && !s.procs[pid].pc.Fetching? ==>
                  forall j: nat | j < |t.procs[pid].pc.workers| :: Part(pid, j) !in t.disk)
  {
    if e.Act? && Alive(s.procs, e.pid) {
      var t := Next(job, s, e);
      forall j: nat | Part(pid, j) !in s.disk && e.pid != pid
        ensures Part(pid, j) !in t.disk
      {
        OthersMakeNoPart(job, s, e.pid, e.action, Part(pid, j));
      }
    }
  }

  /** No process makes a file of another. */
  lemma OthersMakeNoPart(job: Job, s: Sys, pid: nat, a: Action, f: Path)
    requires Alive(s.procs, pid) && f.Part? && f.pid != pid && f !in s.disk
    ensures f !in Next(job, s, Act(pid, a)).disk
  {
    assert Get(s.disk, f) == None;
  }

  /** Nobody is safe from being killed, and nobody comes back. */
  lemma {:induction false} KilledStaysDead(job: Job, s: Sys, pid: nat, trace: seq<SysEvent>)
    requires pid in s.procs
    ensures pid in Run(job, Next(job, s, Kill(pid)), trace).procs
    ensures !Alive(Run(job, Next(job, s, Kill(pid)), trace).procs, pid)
  {
    if trace != [] {
      KilledStaysDead(job, s, pid, trace[..|trace| - 1]);
    }
  }

  /** Any process may appear at any time, begin any pull whenever it is in none, and be killed. */
  lemma WorldIsFree(job: Job, s: Sys, pid: nat, plan: Plan)
    ensures pid !in s.procs ==>
              var t := Next(job, s, Spawn(pid)); Alive(t.procs, pid) && t.procs[pid].pc == Idle && t.disk == s.disk
    ensures Alive(s.procs, pid) && (s.procs[pid].pc.Idle? || s.procs[pid].pc.Done?) ==>
              var t := Next(job, s, Begin(pid, plan));
              t.procs[pid].pc.Reaping? && t.procs[pid].pc.plan == plan && t.disk == s.disk
    ensures pid in s.procs ==> !Alive(Next(job, s, Kill(pid)).procs, pid) && Next(job, s, Kill(pid)).disk == s.disk
  {
  }

  /** While it writes the file together or renames it, the disk may fail a pull at any moment: then it raises. */
  lemma DiskFailureRaises(job: Job, s: Sys, pid: nat, trace: seq<SysEvent>)
    requires Alive(s.procs, pid) && NoNewPull(trace, pid)
    requires s.procs[pid].pc.Opening? || s.procs[pid].pc.Joining? || s.procs[pid].pc.Replacing?
    ensures var t := Run(job, Next(job, s, Act(pid, Fail)), trace);
            && pid in t.procs
            && (t.procs[pid].pc.Done? ==> t.procs[pid].pc.result == Single.Failed)
            && !t.procs[pid].pc.Streaming?
  {
    ClearedAway(job, Next(job, s, Act(pid, Fail)), pid, trace, Raise);
  }

  /**
   * An interrupt ends a pull in any phase that it can interrupt: always, but while several workers are
   * still running and while the clean-up is at work.
   */
  lemma InterruptEnds(job: Job, s: Sys, pid: nat, trace: seq<SysEvent>)
    requires Alive(s.procs, pid) && NoNewPull(trace, pid)
    requires var pc := s.procs[pid].pc;
             || pc.Reaping? || pc.Unlinking? || pc.PreCleaning? || pc.Opening? || pc.Joining? || pc.Replacing?
             || (pc.Fetching? && (|pc.workers| == 1 || AllFinished(pc.workers)))
    ensures var t := Run(job, Next(job, s, Act(pid, Interrupt)), trace);
            && pid in t.procs
            && (t.procs[pid].pc.Done? ==> t.procs[pid].pc.result == Single.Interrupted)
            && !t.procs[pid].pc.Streaming?
  {
    ClearedAway(job, Next(job, s, Act(pid, Interrupt)), pid, trace, Abort);
  }

  /** What an exception becomes once the clean-up is through. */
  function Ending(after: After): Single.Result {
    if after.Abort? then Single.Interrupted else Single.Failed
  }

  /** Once an exception is on its way out through the clean-up, nothing stops it. */
  lemma {:induction false} ClearedAway(job: Job, s: Sys, pid: nat, trace: seq<SysEvent>, after: After)
    requires pid in s.procs && NoNewPull(trace, pid) && (after.Raise? || after.Abort?)
    requires var pc := s.procs[pid].pc; (pc.Cleaning? && pc.after == after) || pc == Done(Ending(after))
    ensures var t := Run(job, s, trace);
            && pid in t.procs
            && var pc := t.procs[pid].pc; (pc.Cleaning? && pc.after == after) || pc == Done(Ending(after))
  {
    if trace != [] {
      assert trace[|trace| - 1] in trace;
      ClearedAway(job, s, pid, trace[..|trace| - 1], after);
    }
  }

  /**
   * No worker outlives the fetching of its pull: when the pull leaves it, whichever way, every worker has
   * finished, unless the only one runs in the thread that an interrupt hits.
   */
  lemma PoolIsDrained(job: Job, s: Sys, pid: nat, e: SysEvent)
    requires Alive(s.procs, pid) && s.procs[pid].pc.Fetching?
    requires !Next(job, s, e).procs[pid].pc.Fetching?
    ensures var workers := s.procs[pid].pc.workers;
            e.Act? && e.pid == pid && (AllFinished(workers) || (|workers| == 1 && e.action == Interrupt))
  {
  }

  /** Inside a pull the single-stream download does to its tmp file, and to the target, what it does alone. */
  lemma StreamsAsAlone(job: Job, s: Sys, pid: nat, move: Single.Move)
    requires Alive(s.procs, pid) && s.procs[pid].pc.Streaming? && !s.procs[pid].pc.stage.Ended?
    ensures var now := Single.State(s.procs[pid].pc.stage, Get(s.disk, Tmp(pid)), Get(s.disk, Target), 0, 0);
            var alone := Single.Step(job.src, job.retries, now, move);
            var t := Next(job, s, Act(pid, Stream(move)));
            && Get(t.disk, Tmp(pid)) == alone.tmp && Get(t.disk, Target) == alone.target
            && t.procs[pid].pc == if alone.stage.Ended? then Done(alone.stage.result) else Streaming(alone.stage)
  {
  }
}
