/**
 * Any number of processes pulling the same target, each possibly killed at any instant. Every
 * event is one visible action of one process, or of one worker thread inside it, so the runs of
 * this system are all interleavings of all pulls under all fault schedules.
 */
module PullSystem {
  import opened Storage
  import opened ChunkRanges
  import opened Transfer
  import Worker = ChunkWorker
  import Single = SingleStream

  /** Which download a pull performs after its initial reap. */
  datatype Plan = Chunked(par: int) | Streamed

  /** What follows the clean-up of a chunked download. */
  datatype After = Return(bytes: nat) | Raise | FallBack | Abort

  datatype Pc =
    | Idle
    | Reaping(todo: set<Path>, plan: Plan)
    | Unlinking(victim: Path, todo: set<Path>, plan: Plan)
    | PreCleaning(par: int, i: nat)
    | Fetching(par: int, workers: seq<Worker.Worker>)
    | Opening(par: int)
    | Joining(par: int, k: nat, copied: nat, written: nat)
    | Replacing(par: int, written: nat)
    | Cleaning(par: int, i: nat, after: After)
    | Streaming(stage: Single.Stage)
    | Done(result: Single.Result)

  /** `dead` are the processes already dead when the last reap began. */
  datatype Proc = Proc(alive: bool, pc: Pc, dead: set<nat>, published: bool)

  datatype Job = Job(src: Bytes, retries: nat)

  datatype Sys = Sys(procs: map<nat, Proc>, disk: Disk)

  datatype Action =
    | Go
    | Check(file: Path)
    | Work(i: nat, event: Event)
    | Propagate(i: nat)
    | Copy(n: nat)
    | Fail
    | Interrupt
    | Stream(move: Single.Move)

  datatype SysEvent =
    | Spawn(pid: nat)
    | Kill(pid: nat)
    | Begin(pid: nat, plan: Plan)
    | Act(pid: nat, action: Action)

  predicate Alive(procs: map<nat, Proc>, pid: nat) {
    pid in procs && procs[pid].alive
  }

  function Dead(procs: map<nat, Proc>): set<nat> {
    set pid | pid in procs && !procs[pid].alive
  }

  /** The intermediate files a directory listing finds. */
  function Leftovers(disk: Disk): set<Path> {
    set f | f in disk && f != Target
  }

  function StartReap(procs: map<nat, Proc>, p: Proc, disk: Disk, plan: Plan): Proc {
    p.(pc := Reaping(Leftovers(disk), plan), dead := Dead(procs))
  }

  function AfterReap(plan: Plan): Pc {
    match plan
    case Chunked(par) => PreCleaning(par, 0)
    case Streamed => Streaming(Single.Trying(0))
  }

  predicate AllFinished(workers: seq<Worker.Worker>) {
    forall i | 0 <= i < |workers| :: workers[i].Finished?
  }

  predicate AllFetched(workers: seq<Worker.Worker>) {
    forall i | 0 <= i < |workers| :: workers[i] == Worker.Finished(Worker.Fetched)
  }

  // The phases of one process. Each function gives the new process record and the new disk;
  // an action that does not apply changes nothing.

  function StepReap(procs: map<nat, Proc>, p: Proc, disk: Disk, a: Action): (Proc, Disk)
    requires p.pc.Reaping? || p.pc.Unlinking?
  {
    if a == Interrupt then (p.(pc := Done(Single.Interrupted)), disk) else
    match p.pc
    case Unlinking(f, todo, plan) => (p.(pc := Reaping(todo, plan)), Set(disk, f, None))
    case Reaping(todo, plan) =>
      if todo == {} then (p.(pc := AfterReap(plan)), disk)
      else if !a.Check? || a.file !in todo then (p, disk)
      else if a.file != Target && Alive(procs, a.file.pid) then (p.(pc := Reaping(todo - {a.file}, plan)), disk)
      else (p.(pc := Unlinking(a.file, todo - {a.file}, plan)), disk)
  }

  function StepPreClean(job: Job, pid: nat, p: Proc, disk: Disk, a: Action): (Proc, Disk)
    requires p.pc.PreCleaning?
  {
    var n := Count(|job.src|, p.pc.par);
    if a == Interrupt then (p.(pc := Done(Single.Interrupted)), disk)
    else if p.pc.i < n then (p.(pc := PreCleaning(p.pc.par, p.pc.i + 1)), Set(disk, Part(pid, p.pc.i), None))
    else (p.(pc := Fetching(p.pc.par, seq(n, _ => Worker.Ready(0)))), disk)
  }

  function StepFetch(job: Job, pid: nat, p: Proc, disk: Disk, a: Action): (Proc, Disk)
    requires p.pc.Fetching?
  {
    var par, workers := p.pc.par, p.pc.workers;
    match a
    case Work(i, event) =>
      if i < |workers| && Within(RangeAt(|job.src|, par, i), |job.src|) then
        var (w, part) := Worker.Step(job.src, RangeAt(|job.src|, par, i), job.retries, workers[i],
                                     Get(disk, Part(pid, i)), event);
        (p.(pc := Fetching(par, workers[i := w])), Set(disk, Part(pid, i), part))
      else (p, disk)
    case Go => if AllFetched(workers) then (p.(pc := Opening(par)), disk) else (p, disk)
    case Propagate(i) =>
      // the thread pool is drained before the exception leaves it
      if i < |workers| && AllFinished(workers) && workers[i].outcome != Worker.Fetched then
        (p.(pc := Cleaning(par, 0, if workers[i].outcome == Worker.NotHonored then FallBack else Raise)), disk)
      else (p, disk)
    case Interrupt =>
      // a lone worker runs in the interrupted thread itself
      if AllFinished(workers) || |workers| == 1 then (p.(pc := Cleaning(par, 0, Abort)), disk) else (p, disk)
    case _ => (p, disk)
  }

  /** Append the next block of part `k` to the tmp file, or move on to the next part. */
  function StepJoin(job: Job, pid: nat, p: Proc, disk: Disk, a: Action): (Proc, Disk)
    requires p.pc.Joining?
  {
    var Joining(par, k, copied, written) := p.pc;
    var part := Content(Get(disk, Part(pid, k)));
    if a == Fail || a == Interrupt then (p.(pc := Cleaning(par, 0, if a == Fail then Raise else Abort)), disk)
    else if k == Count(|job.src|, par) then (p.(pc := Replacing(par, written)), disk)
    else if copied == |part| then (p.(pc := Joining(par, k + 1, 0, written)), disk)
    else if a.Copy? && copied + a.n <= |part| then
      (p.(pc := Joining(par, k, copied + a.n, written + a.n)),
       Set(disk, Tmp(pid), Some(Content(Get(disk, Tmp(pid))) + part[copied..copied + a.n])))
    else (p, disk)
  }

  /** Create the tmp file before joining, and rename it onto the target afterwards. */
  function StepPublish(pid: nat, p: Proc, disk: Disk, a: Action): (Proc, Disk)
    requires p.pc.Opening? || p.pc.Replacing?
  {
    if a == Fail || a == Interrupt then (p.(pc := Cleaning(p.pc.par, 0, if a == Fail then Raise else Abort)), disk)
    else
      match p.pc
      case Opening(par) => (p.(pc := Joining(par, 0, 0, 0)), Set(disk, Tmp(pid), Some([])))
      case Replacing(par, written) =>
        (p.(pc := Cleaning(par, 0, Return(written)), published := true),
         Set(Set(disk, Target, Get(disk, Tmp(pid))), Tmp(pid), None))
  }

  function StepClean(job: Job, procs: map<nat, Proc>, pid: nat, p: Proc, disk: Disk): (Proc, Disk)
    requires p.pc.Cleaning?
  {
    var n := Count(|job.src|, p.pc.par);
    if p.pc.i < n then (p.(pc := Cleaning(p.pc.par, p.pc.i + 1, p.pc.after)), Set(disk, Part(pid, p.pc.i), None))
    else
      var swept := Set(disk, Tmp(pid), None);
      match p.pc.after
      case Return(bytes) => (p.(pc := Done(Single.Returned(bytes))), swept)
      case Raise => (p.(pc := Done(Single.Failed)), swept)
      case Abort => (p.(pc := Done(Single.Interrupted)), swept)
      case FallBack => (StartReap(procs, p, swept, Streamed), swept)
  }

  function StepStream(job: Job, pid: nat, p: Proc, disk: Disk, a: Action): (Proc, Disk)
    requires p.pc.Streaming?
  {
    if !a.Stream? then (p, disk)
    else
      var s := Single.Step(job.src, job.retries,
                           Single.State(p.pc.stage, Get(disk, Tmp(pid)), Get(disk, Target), 0, 0), a.move);
      var disk' := Set(Set(disk, Target, s.target), Tmp(pid), s.tmp);
      if s.stage.Ended? then
        (p.(pc := Done(s.stage.result), published := s.stage.result.Returned?), disk')
      else (p.(pc := Streaming(s.stage)), disk')
  }

  function ProcStep(job: Job, procs: map<nat, Proc>, pid: nat, disk: Disk, a: Action): (Proc, Disk)
    requires pid in procs
  {
    var p := procs[pid];
    match p.pc
    case Idle => (p, disk)
    case Done(_) => (p, disk)
    case Reaping(_, _) => StepReap(procs, p, disk, a)
    case Unlinking(_, _, _) => StepReap(procs, p, disk, a)
    case PreCleaning(_, _) => StepPreClean(job, pid, p, disk, a)
    case Fetching(_, _) => StepFetch(job, pid, p, disk, a)
    case Opening(_) => StepPublish(pid, p, disk, a)
    case Joining(_, _, _, _) => StepJoin(job, pid, p, disk, a)
    case Replacing(_, _) => StepPublish(pid, p, disk, a)
    case Cleaning(_, _, _) => StepClean(job, procs, pid, p, disk)
    case Streaming(_) => StepStream(job, pid, p, disk, a)
  }

  /** A process may begin a pull unless it is in one, whatever became of those before. */
  predicate MayBegin(pc: Pc) {
    pc.Idle? || pc.Done?
  }

  function Next(job: Job, s: Sys, e: SysEvent): Sys {
    match e
    case Spawn(pid) =>
      if pid in s.procs then s else s.(procs := s.procs[pid := Proc(true, Idle, {}, false)])
    case Kill(pid) =>
      if pid in s.procs then s.(procs := s.procs[pid := s.procs[pid].(alive := false)]) else s
    case Begin(pid, plan) =>
      if Alive(s.procs, pid) && MayBegin(s.procs[pid].pc) then
        var p := StartReap(s.procs, s.procs[pid], s.disk, plan).(published := false);
        s.(procs := s.procs[pid := p])
      else s
    case Act(pid, action) =>
      if Alive(s.procs, pid) then
        var (p, disk) := ProcStep(job, s.procs, pid, s.disk, action);
        Sys(s.procs[pid := p], disk)
      else s
  }

  function Run(job: Job, s: Sys, trace: seq<SysEvent>): Sys {
    if trace == [] then s else Next(job, Run(job, s, trace[..|trace| - 1]), trace[|trace| - 1])
  }

  // ---------------------------------------------------------------- invariants

  predicate NoneOwned(disk: Disk, pid: nat) {
    forall f | f in disk :: !OwnedBy(f, pid)
  }

  predicate OnlyTmp(disk: Disk, pid: nat) {
    forall f | f in disk && OwnedBy(f, pid) :: f == Tmp(pid)
  }

  /** At most the tmp file is left, by an interrupted single-stream download, and holds bytes of the source. */
  predicate AtMostTmp(job: Job, disk: Disk, pid: nat) {
    OnlyTmp(disk, pid) && Content(Get(disk, Tmp(pid))) <= job.src
  }

  /** Own files are the tmp file at most, and parts numbered from `i` to below the range count. */
  predicate OnlyParts(job: Job, disk: Disk, pid: nat, par: int, i: nat) {
    forall f | f in disk && OwnedBy(f, pid) && f.Part? :: i <= f.i < Count(|job.src|, par)
  }

  predicate AllWithin(job: Job, par: int) {
    forall i | 0 <= i < Count(|job.src|, par) :: Within(RangeAt(|job.src|, par, i), |job.src|)
  }

  predicate PartsWhole(job: Job, disk: Disk, pid: nat, par: int) {
    && AllWithin(job, par)
    && forall i | 0 <= i < Count(|job.src|, par) ::
         Get(disk, Part(pid, i)) == Some(Slice(job.src, RangeAt(|job.src|, par, i)))
  }

  predicate FetchInv(job: Job, disk: Disk, pid: nat, par: int, workers: seq<Worker.Worker>) {
    && |workers| == Count(|job.src|, par)
    && AllWithin(job, par)
    && OnlyParts(job, disk, pid, par, 0)
    && forall i | 0 <= i < |workers| ::
         Worker.Inv(job.src, RangeAt(|job.src|, par, i), job.retries, workers[i], Get(disk, Part(pid, i)))
  }

  predicate JoinInv(job: Job, disk: Disk, pid: nat, par: int, k: nat, copied: nat, written: nat) {
    var total := |job.src|;
    && OnlyParts(job, disk, pid, par, 0)
    && PartsWhole(job, disk, pid, par)
    && k <= Count(total, par)
    && copied <= Cut(total, par, k + 1) - Cut(total, par, k)
    && written == Cut(total, par, k) + copied <= total
    && Get(disk, Tmp(pid)) == Some(job.src[..written])
  }

  /** The own files of a live process, phase by phase. */
  predicate FilesInv(job: Job, disk: Disk, pid: nat, p: Proc) {
    match p.pc
    case Idle => NoneOwned(disk, pid)
    case Reaping(_, _) => AtMostTmp(job, disk, pid)
    case Unlinking(_, _, _) => AtMostTmp(job, disk, pid)
    case PreCleaning(_, _) => AtMostTmp(job, disk, pid)
    case Fetching(par, workers) => FetchInv(job, disk, pid, par, workers)
    case Opening(par) => OnlyParts(job, disk, pid, par, 0) && PartsWhole(job, disk, pid, par)
    case Joining(par, k, copied, written) => JoinInv(job, disk, pid, par, k, copied, written)
    case Replacing(par, written) =>
      && OnlyParts(job, disk, pid, par, 0) && Get(disk, Tmp(pid)) == Some(job.src) && written == |job.src|
    case Cleaning(par, i, after) =>
      && OnlyParts(job, disk, pid, par, i)
      && (after.Return? ==> after.bytes == |job.src|)
    case Streaming(stage) =>
      && !stage.Ended?
      && OnlyTmp(disk, pid)
      && Single.Shape(job.src, job.retries, Single.State(stage, Get(disk, Tmp(pid)), Get(disk, Target), 0, 0))
    case Done(result) =>
      && (result.Returned? ==> result.bytes == |job.src|)
      && (if result.Interrupted? then AtMostTmp(job, disk, pid) else NoneOwned(disk, pid))
  }

  /** A pull has published exactly when it is on its way to a normal return. */
  predicate PublishedInv(p: Proc) {
    p.published <==> (p.pc.Cleaning? && p.pc.after.Return?) || (p.pc.Done? && p.pc.result.Returned?)
  }

  /** Leftovers of the processes in `dead` are gone once the reap is over, and on its list before. */
  predicate ReapInv(disk: Disk, p: Proc) {
    match p.pc
    case Idle => true
    case Reaping(todo, _) => forall f | f in disk && f != Target && f.pid in p.dead :: f in todo
    case Unlinking(victim, todo, _) =>
      forall f | f in disk && f != Target && f.pid in p.dead :: f in todo || f == victim
    case _ => p.pc == Done(Single.Interrupted) || forall f | f in disk && f != Target :: f.pid !in p.dead
  }

  /** The files to examine belong to known processes, and the one chosen for removal to a dead one. */
  predicate VictimInv(procs: map<nat, Proc>, p: Proc) {
    match p.pc
    case Reaping(todo, _) => forall f | f in todo :: f != Target && f.pid in procs
    case Unlinking(victim, todo, _) =>
      && victim != Target && victim.pid in procs && !procs[victim.pid].alive
      && forall f | f in todo :: f != Target && f.pid in procs
    case _ => true
  }

  predicate LocalInv(job: Job, procs: map<nat, Proc>, disk: Disk, pid: nat, p: Proc) {
    && FilesInv(job, disk, pid, p)
    && ReapInv(disk, p)
    && VictimInv(procs, p)
    && p.dead <= Dead(procs)
  }

  /** Every intermediate file was made by a process that is, or was, in the system. */
  predicate Known(procs: map<nat, Proc>, disk: Disk) {
    forall f | f in disk && f != Target :: f.pid in procs
  }

  predicate TargetInv(job: Job, first: Option<Bytes>, s: Sys) {
    && (Get(s.disk, Target) == first || Get(s.disk, Target) == Some(job.src))
    && ((exists pid | pid in s.procs :: s.procs[pid].published) ==> Get(s.disk, Target) == Some(job.src))
  }

  /** `first` is what the target held at the beginning of the run. */
  ghost predicate Inv(job: Job, first: Option<Bytes>, s: Sys) {
    && TargetInv(job, first, s)
    && Known(s.procs, s.disk)
    && (forall pid | pid in s.procs :: PublishedInv(s.procs[pid]))
    && (forall pid | Alive(s.procs, pid) :: LocalInv(job, s.procs, s.disk, pid, s.procs[pid]))
  }

  /**
   * What one step of a live process may do to the disk: change its own files, remove a dead
   * process's file, and put a complete copy of the source at the target.
   */
  ghost predicate Footprint(job: Job, procs: map<nat, Proc>, pid: nat, disk: Disk, p': Proc, disk': Disk)
    requires pid in procs
  {
    && (forall f | f != Target && f.pid != pid && Get(disk', f) != Get(disk, f) ::
          f !in disk' && !Alive(procs, f.pid))
    && (Get(disk', Target) != Get(disk, Target) || (p'.published && !procs[pid].published) ==>
          Get(disk', Target) == Some(job.src) && p'.published && !procs[pid].published)
  }

  ghost predicate StepOk(job: Job, procs: map<nat, Proc>, pid: nat, disk: Disk, p': Proc, disk': Disk)
    requires pid in procs
  {
    && p'.alive
    && (p'.dead == procs[pid].dead || p'.dead == Dead(procs))
    && (p'.pc.Idle? ==> procs[pid].pc.Idle?)
    && PublishedInv(p')
    && LocalInv(job, procs, disk', pid, p')
    && Footprint(job, procs, pid, disk, p', disk')
  }

  predicate Ready(job: Job, procs: map<nat, Proc>, pid: nat, disk: Disk) {
    && Alive(procs, pid) && Known(procs, disk)
    && PublishedInv(procs[pid]) && LocalInv(job, procs, disk, pid, procs[pid])
  }

  lemma ReapStep(job: Job, procs: map<nat, Proc>, pid: nat, disk: Disk, a: Action)
    requires Ready(job, procs, pid, disk) && (procs[pid].pc.Reaping? || procs[pid].pc.Unlinking?)
    ensures var (p', disk') := StepReap(procs, procs[pid], disk, a); StepOk(job, procs, pid, disk, p', disk')
  {
  }

  lemma PreCleanStep(job: Job, procs: map<nat, Proc>, pid: nat, disk: Disk, a: Action)
    requires Ready(job, procs, pid, disk) && procs[pid].pc.PreCleaning?
    ensures var (p', disk') := StepPreClean(job, pid, procs[pid], disk, a); StepOk(job, procs, pid, disk, p', disk')
  {
    forall i | 0 <= i < Count(|job.src|, procs[pid].pc.par) {
      CutsGrow(|job.src|, procs[pid].pc.par, i);
    }
  }

  lemma FetchStep(job: Job, procs: map<nat, Proc>, pid: nat, disk: Disk, a: Action)
    requires Ready(job, procs, pid, disk) && procs[pid].pc.Fetching?
    ensures var (p', disk') := StepFetch(job, pid, procs[pid], disk, a); StepOk(job, procs, pid, disk, p', disk')
  {
    var p := procs[pid];
    if a.Work? && a.i < |p.pc.workers| {
      Worker.StepKeepsInv(job.src, RangeAt(|job.src|, p.pc.par, a.i), job.retries, p.pc.workers[a.i],
                          Get(disk, Part(pid, a.i)), a.event);
    }
  }

  lemma CopyKeepsJoin(job: Job, disk: Disk, pid: nat, par: int, k: nat, copied: nat, written: nat, n: nat)
    requires JoinInv(job, disk, pid, par, k, copied, written) && k < Count(|job.src|, par)
    requires copied + n <= |disk[Part(pid, k)]|
    ensures var block := disk[Part(pid, k)][copied..copied + n];
            JoinInv(job, Set(disk, Tmp(pid), Some(disk[Tmp(pid)] + block)), pid, par, k, copied + n, written + n)
  {
    PartSize(job, disk, pid, par, k);
    assert disk[Tmp(pid)] == job.src[..written];
    CopyExtends(job.src, RangeAt(|job.src|, par, k), copied, n);
    TmpKeepsJoin(job, disk, pid, par, k, copied, written, n);
  }

  /** A part that is joined is its range of the source. */
  lemma PartSize(job: Job, disk: Disk, pid: nat, par: int, k: nat)
    requires PartsWhole(job, disk, pid, par) && k < Count(|job.src|, par)
    ensures Within(RangeAt(|job.src|, par, k), |job.src|)
    ensures Part(pid, k) in disk && disk[Part(pid, k)] == Slice(job.src, RangeAt(|job.src|, par, k))
    ensures |disk[Part(pid, k)]| == Cut(|job.src|, par, k + 1) - Cut(|job.src|, par, k)
  {
    assert Get(disk, Part(pid, k)) == Some(Slice(job.src, RangeAt(|job.src|, par, k)));
  }

  lemma TmpKeepsJoin(job: Job, disk: Disk, pid: nat, par: int, k: nat, copied: nat, written: nat, n: nat)
    requires JoinInv(job, disk, pid, par, k, copied, written) && k < Count(|job.src|, par)
    requires copied + n <= Cut(|job.src|, par, k + 1) - Cut(|job.src|, par, k)
    ensures written + n <= |job.src|
    ensures JoinInv(job, Set(disk, Tmp(pid), Some(job.src[..written + n])), pid, par, k, copied + n, written + n)
  {
    CutsGrow(|job.src|, par, k);
    var disk' := Set(disk, Tmp(pid), Some(job.src[..written + n]));
    assert forall i :: Get(disk', Part(pid, i)) == Get(disk, Part(pid, i));
  }

  /** A block of a part, put behind what precedes it in the source, makes a longer prefix. */
  lemma CopyExtends(src: Bytes, r: Range, copied: nat, n: nat)
    requires Within(r, |src|) && copied + n <= Length(r)
    ensures var written := r.start + copied;
            src[..written] + Slice(src, r)[copied..copied + n] == src[..written + n]
  {
    SliceOfSlice(src, r.start, r.end + 1, copied, copied + n);
  }

  lemma NextPartKeepsJoin(job: Job, disk: Disk, pid: nat, par: int, k: nat, copied: nat, written: nat)
    requires JoinInv(job, disk, pid, par, k, copied, written) && k < Count(|job.src|, par)
    requires copied == |disk[Part(pid, k)]|
    ensures JoinInv(job, disk, pid, par, k + 1, 0, written)
  {
    CutsGrow(|job.src|, par, k);
    if k + 1 < Count(|job.src|, par) {
      CutsGrow(|job.src|, par, k + 1);
    }
  }

  lemma JoinStep(job: Job, procs: map<nat, Proc>, pid: nat, disk: Disk, a: Action)
    requires Ready(job, procs, pid, disk) && procs[pid].pc.Joining?
    ensures var (p', disk') := StepJoin(job, pid, procs[pid], disk, a); StepOk(job, procs, pid, disk, p', disk')
  {
    var Joining(par, k, copied, written) := procs[pid].pc;
    if k == Count(|job.src|, par) {
      assert job.src[..|job.src|] == job.src;
    } else {
      assert disk[Part(pid, k)] == Content(Get(disk, Part(pid, k)));
      if copied == |disk[Part(pid, k)]| {
        NextPartKeepsJoin(job, disk, pid, par, k, copied, written);
      } else if a.Copy? && copied + a.n <= |disk[Part(pid, k)]| {
        CopyKeepsJoin(job, disk, pid, par, k, copied, written, a.n);
      }
    }
  }

  lemma PublishStep(job: Job, procs: map<nat, Proc>, pid: nat, disk: Disk, a: Action)
    requires Ready(job, procs, pid, disk) && (procs[pid].pc.Opening? || procs[pid].pc.Replacing?)
    ensures var (p', disk') := StepPublish(pid, procs[pid], disk, a); StepOk(job, procs, pid, disk, p', disk')
  {
    if procs[pid].pc.Opening? {
      CutsGrow(|job.src|, procs[pid].pc.par, 0);
    }
  }

  lemma CleanStep(job: Job, procs: map<nat, Proc>, pid: nat, disk: Disk)
    requires Ready(job, procs, pid, disk) && procs[pid].pc.Cleaning?
    ensures var (p', disk') := StepClean(job, procs, pid, procs[pid], disk); StepOk(job, procs, pid, disk, p', disk')
  {
  }

  lemma StreamStep(job: Job, procs: map<nat, Proc>, pid: nat, disk: Disk, a: Action)
    requires Ready(job, procs, pid, disk) && procs[pid].pc.Streaming?
    ensures var (p', disk') := StepStream(job, pid, procs[pid], disk, a); StepOk(job, procs, pid, disk, p', disk')
  {
    if a.Stream? {
      Single.StepKeepsShape(job.src, job.retries,
                            Single.State(procs[pid].pc.stage, Get(disk, Tmp(pid)), Get(disk, Target), 0, 0), a.move);
    }
  }

  lemma ProcStepOk(job: Job, procs: map<nat, Proc>, pid: nat, disk: Disk, a: Action)
    requires Ready(job, procs, pid, disk)
    ensures var (p', disk') := ProcStep(job, procs, pid, disk, a); StepOk(job, procs, pid, disk, p', disk')
  {
    var p := procs[pid];
    var pc := p.pc;
    if pc.Reaping? || pc.Unlinking? {
      assert ProcStep(job, procs, pid, disk, a) == StepReap(procs, p, disk, a);
      ReapStep(job, procs, pid, disk, a);
    } else if pc.PreCleaning? {
      assert ProcStep(job, procs, pid, disk, a) == StepPreClean(job, pid, p, disk, a);
      PreCleanStep(job, procs, pid, disk, a);
    } else if pc.Fetching? {
      assert ProcStep(job, procs, pid, disk, a) == StepFetch(job, pid, p, disk, a);
      FetchStep(job, procs, pid, disk, a);
    } else if pc.Opening? || pc.Replacing? {
      assert ProcStep(job, procs, pid, disk, a) == StepPublish(pid, p, disk, a);
      PublishStep(job, procs, pid, disk, a);
    } else if pc.Joining? {
      assert ProcStep(job, procs, pid, disk, a) == StepJoin(job, pid, p, disk, a);
      JoinStep(job, procs, pid, disk, a);
    } else if pc.Cleaning? {
      assert ProcStep(job, procs, pid, disk, a) == StepClean(job, procs, pid, p, disk);
      CleanStep(job, procs, pid, disk);
    } else if pc.Streaming? {
      assert ProcStep(job, procs, pid, disk, a) == StepStream(job, pid, p, disk, a);
      StreamStep(job, procs, pid, disk, a);
    }
  }

  ghost predicate SameOwned(disk: Disk, disk': Disk, pid: nat) {
    forall f | OwnedBy(f, pid) :: Get(disk', f) == Get(disk, f)
  }

  /** The files of a process say the same about it as long as nobody touches them. */
  lemma FilesInvFrame(job: Job, disk: Disk, disk': Disk, pid: nat, p: Proc)
    requires FilesInv(job, disk, pid, p) && SameOwned(disk, disk', pid)
    ensures FilesInv(job, disk', pid, p)
  {
  }

  /** A step of one process leaves every other live process's view of the disk intact. */
  lemma OtherKeepsLocalInv(job: Job, s: Sys, s': Sys, pid: nat, q: nat)
    requires Alive(s.procs, q) && LocalInv(job, s.procs, s.disk, q, s.procs[q]) && q != pid && pid in s.procs
    requires pid in s'.procs && s'.procs == s.procs[pid := s'.procs[pid]] && s'.procs[pid].alive == s.procs[pid].alive
    requires s.procs[pid].alive && Footprint(job, s.procs, pid, s.disk, s'.procs[pid], s'.disk)
    ensures LocalInv(job, s'.procs, s'.disk, q, s.procs[q])
  {
    assert SameOwned(s.disk, s'.disk, q);
    FilesInvFrame(job, s.disk, s'.disk, q, s.procs[q]);
    assert Dead(s'.procs) == Dead(s.procs);
    forall f | f in s'.disk && f != Target && f.pid in s.procs[q].dead
      ensures f in s.disk
    {
      assert f.pid in Dead(s.procs);
      assert Get(s'.disk, f) == Get(s.disk, f);
    }
  }

  lemma ActKeepsInv(job: Job, first: Option<Bytes>, s: Sys, pid: nat, a: Action)
    requires Inv(job, first, s) && Alive(s.procs, pid)
    ensures Inv(job, first, Next(job, s, Act(pid, a)))
    ensures var s' := Next(job, s, Act(pid, a));
            && s'.procs[pid].alive && Footprint(job, s.procs, pid, s.disk, s'.procs[pid], s'.disk)
            && (s'.procs[pid].dead == s.procs[pid].dead || s'.procs[pid].dead == Dead(s.procs))
            && (s'.procs[pid].pc.Idle? ==> s.procs[pid].pc.Idle?)
  {
    ProcStepOk(job, s.procs, pid, s.disk, a);
    var (p', disk') := ProcStep(job, s.procs, pid, s.disk, a);
    var s' := Sys(s.procs[pid := p'], disk');
    assert Dead(s'.procs) == Dead(s.procs);
    forall q | Alive(s'.procs, q)
      ensures LocalInv(job, s'.procs, s'.disk, q, s'.procs[q])
    {
      if q != pid {
        OtherKeepsLocalInv(job, s, s', pid, q);
      }
    }
    forall f | f in s'.disk && f != Target
      ensures f.pid in s'.procs
    {
      if f.pid != pid {
        assert Get(s'.disk, f) == Get(s.disk, f);
      }
    }
  }

  lemma KillKeepsInv(job: Job, first: Option<Bytes>, s: Sys, pid: nat)
    requires Inv(job, first, s) && pid in s.procs
    ensures Inv(job, first, Next(job, s, Kill(pid)))
  {
    var s' := Next(job, s, Kill(pid));
    assert Dead(s.procs) <= Dead(s'.procs);
    assert forall q | q in s'.procs :: s'.procs[q].published == s.procs[q].published;
  }

  lemma SpawnKeepsInv(job: Job, first: Option<Bytes>, s: Sys, pid: nat)
    requires Inv(job, first, s) && pid !in s.procs
    ensures Inv(job, first, Next(job, s, Spawn(pid)))
  {
    var s' := Next(job, s, Spawn(pid));
    assert Dead(s.procs) == Dead(s'.procs);
    assert forall q | q in s'.procs && s'.procs[q].published :: s.procs[q].published;
    forall q | Alive(s'.procs, q)
      ensures LocalInv(job, s'.procs, s'.disk, q, s'.procs[q])
    {
      assert q != pid ==> Alive(s.procs, q);
    }
  }

  lemma BeginKeepsLocalInv(job: Job, s: Sys, pid: nat, plan: Plan, q: nat)
    requires Known(s.procs, s.disk) && Alive(s.procs, pid) && MayBegin(s.procs[pid].pc)
    requires Alive(s.procs, q) && LocalInv(job, s.procs, s.disk, q, s.procs[q])
    ensures var s' := Next(job, s, Begin(pid, plan)); LocalInv(job, s'.procs, s'.disk, q, s'.procs[q])
  {
    var s' := Next(job, s, Begin(pid, plan));
    assert Dead(s.procs) == Dead(s'.procs);
  }

  lemma BeginKeepsInv(job: Job, first: Option<Bytes>, s: Sys, pid: nat, plan: Plan)
    requires Inv(job, first, s)
    ensures Inv(job, first, Next(job, s, Begin(pid, plan)))
  {
    if Alive(s.procs, pid) && MayBegin(s.procs[pid].pc) {
      var s' := Next(job, s, Begin(pid, plan));
      assert forall q | q in s'.procs && s'.procs[q].published :: s.procs[q].published;
      forall q | Alive(s'.procs, q)
        ensures LocalInv(job, s'.procs, s'.disk, q, s'.procs[q])
      {
        BeginKeepsLocalInv(job, s, pid, plan, q);
      }
    }
  }

  lemma NextKeepsInv(job: Job, first: Option<Bytes>, s: Sys, e: SysEvent)
    requires Inv(job, first, s)
    ensures Inv(job, first, Next(job, s, e))
  {
    match e
    case Spawn(pid) => if pid !in s.procs { SpawnKeepsInv(job, first, s, pid); }
    case Kill(pid) => if pid in s.procs { KillKeepsInv(job, first, s, pid); }
    case Begin(pid, plan) => BeginKeepsInv(job, first, s, pid, plan);
    case Act(pid, a) => if Alive(s.procs, pid) { ActKeepsInv(job, first, s, pid, a); }
  }

  lemma {:induction false} RunKeepsInv(job: Job, first: Option<Bytes>, s: Sys, trace: seq<SysEvent>)
    requires Inv(job, first, s)
    ensures Inv(job, first, Run(job, s, trace))
  {
    if trace != [] {
      RunKeepsInv(job, first, s, trace[..|trace| - 1]);
      NextKeepsInv(job, first, Run(job, s, trace[..|trace| - 1]), trace[|trace| - 1]);
    }
  }

  // ---------------------------------------------------------------- what every run guarantees

  /** Processes that have not started to pull, next to leftovers of processes long dead. */
  predicate Initial(s: Sys) {
    && Known(s.procs, s.disk)
    && forall pid | pid in s.procs ::
         s.procs[pid] == Proc(s.procs[pid].alive, Idle, {}, false) && (s.procs[pid].alive ==> NoneOwned(s.disk, pid))
  }

  /**
   * In every run, at every instant, the target is what it was at the beginning or a complete
   * copy of the source, whoever is killed wherever.
   */
  lemma TargetOldOrWhole(job: Job, s: Sys, trace: seq<SysEvent>)
    requires Initial(s)
    ensures Inv(job, Get(s.disk, Target), Run(job, s, trace))
    ensures Get(Run(job, s, trace).disk, Target) in {Get(s.disk, Target), Some(job.src)}
  {
    RunKeepsInv(job, Get(s.disk, Target), s, trace);
  }

  /**
   * How a pull ends. A normal return: the target equals the source and the returned count is its
   * length. After a return or an exception no intermediate file of the process survives; after an
   * interrupt at most the tmp file does, and that only holds bytes of the source. A pull that did
   * not return has not published.
   */
  lemma PullOutcome(job: Job, s: Sys, trace: seq<SysEvent>, pid: nat)
    requires Initial(s)
    requires var s' := Run(job, s, trace); Alive(s'.procs, pid) && s'.procs[pid].pc.Done?
    ensures var s' := Run(job, s, trace);
            match s'.procs[pid].pc.result
            case Returned(bytes) =>
              NoneOwned(s'.disk, pid) && bytes == |job.src| && Get(s'.disk, Target) == Some(job.src)
            case Failed => NoneOwned(s'.disk, pid) && !s'.procs[pid].published
            case Interrupted =>
              && OnlyTmp(s'.disk, pid) && Content(Get(s'.disk, Tmp(pid))) <= job.src
              && !s'.procs[pid].published
  {
    TargetOldOrWhole(job, s, trace);
    var s' := Run(job, s, trace);
    assert PublishedInv(s'.procs[pid]);
    assert LocalInv(job, s'.procs, s'.disk, pid, s'.procs[pid]);
  }

  /** No event but its own action alters or removes a file of a live process. */
  lemma LiveFilesAreSafe(job: Job, s: Sys, trace: seq<SysEvent>, e: SysEvent, pid: nat, f: Path)
    requires Initial(s) && OwnedBy(f, pid) && Alive(Run(job, s, trace).procs, pid)
    requires Get(Next(job, Run(job, s, trace), e).disk, f) != Get(Run(job, s, trace).disk, f)
    ensures e.Act? && e.pid == pid
  {
    TargetOldOrWhole(job, s, trace);
    var t := Run(job, s, trace);
    if e.Act? && e.pid != pid && Alive(t.procs, e.pid) {
      ActKeepsInv(job, Get(s.disk, Target), t, e.pid, e.action);
    }
  }

  /** The target changes only when the acting process publishes a whole copy. */
  lemma OnlyPublishingChangesTarget(job: Job, first: Option<Bytes>, s: Sys, e: SysEvent)
    requires Inv(job, first, s) && Get(Next(job, s, e).disk, Target) != Get(s.disk, Target)
    ensures var s' := Next(job, s, e);
            && e.Act? && Alive(s.procs, e.pid) && e.pid in s'.procs
            && !s.procs[e.pid].published && s'.procs[e.pid].published
            && Get(s'.disk, Target) == Some(job.src)
  {
    if e.Act? && Alive(s.procs, e.pid) {
      ActKeepsInv(job, first, s, e.pid, e.action);
    }
  }

  /** Having published is forgotten only by the next pull of the same process. */
  lemma PublishedStays(job: Job, first: Option<Bytes>, s: Sys, e: SysEvent, pid: nat)
    requires Inv(job, first, s) && pid in s.procs && s.procs[pid].published && !(e.Begin? && e.pid == pid)
    ensures pid in Next(job, s, e).procs && Next(job, s, e).procs[pid].published
  {
    if e == Act(pid, Go) || (e.Act? && e.pid == pid && Alive(s.procs, pid)) {
      var p := s.procs[pid];
      assert PublishedInv(p);
    }
  }

  lemma {:induction false} PublishedLasts(job: Job, first: Option<Bytes>, s: Sys, trace: seq<SysEvent>,
                                          k: nat, pid: nat)
    requires Inv(job, first, s) && k <= |trace|
    requires forall e | e in trace :: !(e.Begin? && e.pid == pid)
    requires var t := Run(job, s, trace[..k]); pid in t.procs && t.procs[pid].published
    ensures var t := Run(job, s, trace); pid in t.procs && t.procs[pid].published
    decreases |trace|
  {
    if k == |trace| {
      assert trace[..k] == trace;
    } else {
      var shorter := trace[..|trace| - 1];
      assert shorter[..k] == trace[..k];
      PublishedLasts(job, first, s, shorter, k, pid);
      RunKeepsInv(job, first, s, shorter);
      PublishedStays(job, first, Run(job, s, shorter), trace[|trace| - 1], pid);
    }
  }

  /** A pull that has not published by some instant has never changed the target: so an exception leaves it alone. */
  lemma UnpublishedPullLeftTarget(job: Job, first: Option<Bytes>, s: Sys, trace: seq<SysEvent>, k: nat, pid: nat)
    requires Inv(job, first, s) && k < |trace| && trace[k].Act? && trace[k].pid == pid
    requires forall e | e in trace :: !(e.Begin? && e.pid == pid)
    requires var t := Run(job, s, trace); pid in t.procs && !t.procs[pid].published
    ensures Get(Run(job, s, trace[..k + 1]).disk, Target) == Get(Run(job, s, trace[..k]).disk, Target)
  {
    RunKeepsInv(job, first, s, trace[..k]);
    assert trace[..k + 1][..k] == trace[..k];
    if Get(Run(job, s, trace[..k + 1]).disk, Target) != Get(Run(job, s, trace[..k]).disk, Target) {
      OnlyPublishingChangesTarget(job, first, Run(job, s, trace[..k]), trace[k]);
      PublishedLasts(job, first, s, trace, k + 1, pid);
    }
  }

  predicate PastReap(p: Proc) {
    !p.pc.Idle? && !p.pc.Reaping? && !p.pc.Unlinking? && p.pc != Done(Single.Interrupted)
  }

  lemma DeadGrows(job: Job, first: Option<Bytes>, s: Sys, e: SysEvent, pid: nat)
    requires Inv(job, first, s) && Alive(Next(job, s, e).procs, pid) && pid in s.procs && !s.procs[pid].pc.Idle?
    ensures s.procs[pid].alive && s.procs[pid].dead <= Next(job, s, e).procs[pid].dead
    ensures !Next(job, s, e).procs[pid].pc.Idle?
  {
    assert Alive(s.procs, pid);
    assert LocalInv(job, s.procs, s.disk, pid, s.procs[pid]);
    if e.Act? && e.pid == pid {
      ActKeepsInv(job, first, s, pid, e.action);
    }
  }

  /**
   * Each pull starts by removing leftovers: once a pull begun in `s` is past its reap, no file of
   * a process that was already dead in `s` is left, whatever happened in between.
   */
  lemma {:induction false} LeftoversAreReaped(job: Job, first: Option<Bytes>, s: Sys, pid: nat, plan: Plan,
                                              trace: seq<SysEvent>)
    requires Inv(job, first, s) && Alive(s.procs, pid) && MayBegin(s.procs[pid].pc)
    requires Alive(Run(job, Next(job, s, Begin(pid, plan)), trace).procs, pid)
    ensures var t := Run(job, Next(job, s, Begin(pid, plan)), trace);
            && !t.procs[pid].pc.Idle? && Dead(s.procs) <= t.procs[pid].dead
            && (PastReap(t.procs[pid]) ==> forall f | f in t.disk && f != Target :: f.pid !in Dead(s.procs))
  {
    var b := Next(job, s, Begin(pid, plan));
    BeginKeepsInv(job, first, s, pid, plan);
    RunKeepsInv(job, first, b, trace);
    if trace != [] {
      var before := Run(job, b, trace[..|trace| - 1]);
      RunKeepsInv(job, first, b, trace[..|trace| - 1]);
      assert pid in before.procs by { ProcsPersist(job, b, trace[..|trace| - 1], pid); }
      AliveBefore(job, before, trace[|trace| - 1], pid);
      LeftoversAreReaped(job, first, s, pid, plan, trace[..|trace| - 1]);
      DeadGrows(job, first, before, trace[|trace| - 1], pid);
    }
    var t := Run(job, b, trace);
    assert LocalInv(job, t.procs, t.disk, pid, t.procs[pid]);
  }

  lemma AliveBefore(job: Job, s: Sys, e: SysEvent, pid: nat)
    requires pid in s.procs && Alive(Next(job, s, e).procs, pid)
    ensures Alive(s.procs, pid)
  {
  }

  lemma {:induction false} ProcsPersist(job: Job, s: Sys, trace: seq<SysEvent>, pid: nat)
    requires pid in s.procs
    ensures pid in Run(job, s, trace).procs
  {
    if trace != [] {
      ProcsPersist(job, s, trace[..|trace| - 1], pid);
    }
  }

  // ---------------------------------------------------------------- no pull is ever stuck

  /** The phases in the order a pull goes through them, the last first. */
  function Rank(pc: Pc): nat {
    match pc
    case Idle => 0
    case Done(_) => 0
    case Streaming(_) => 1
    case Reaping(_, plan) => if plan.Streamed? then 2 else 9
    case Unlinking(_, _, plan) => if plan.Streamed? then 2 else 9
    case Cleaning(_, _, _) => 3
    case Replacing(_, _) => 4
    case Joining(_, _, _, _) => 5
    case Opening(_) => 6
    case Fetching(_, _) => 7
    case PreCleaning(_, _) => 8
  }

  function WorkerWork(w: Worker.Worker, end: int): nat {
    match w
    case Ready(_) => 3
    case Streaming(_, next) => if next <= end then 2 else 1
    case Finished(_) => 0
  }

  function FetchWork(job: Job, par: int, workers: seq<Worker.Worker>): nat {
    if workers == [] then 0
    else
      var n := |workers| - 1;
      FetchWork(job, par, workers[..n]) + WorkerWork(workers[n], RangeAt(|job.src|, par, n).end)
  }

  function StageWork(job: Job, stage: Single.Stage): nat {
    match stage
    case Trying(_) => 4
    case Receiving(_, next, _) => if next < |job.src| then 3 else 2
    case Saving(_) => 1
    case Dropping => 1
    case Ended(_) => 0
  }

  /** What is left to do within a phase. */
  function Left(job: Job, pc: Pc): int {
    match pc
    case Reaping(todo, _) => 2 * |todo|
    case Unlinking(_, todo, _) => 2 * |todo| + 1
    case PreCleaning(par, i) => Count(|job.src|, par) - i
    case Fetching(par, workers) => FetchWork(job, par, workers)
    case Joining(par, k, copied, _) =>
      2 * (Count(|job.src|, par) - k) + (if copied < Cut(|job.src|, par, k + 1) - Cut(|job.src|, par, k) then 1 else 0)
    case Cleaning(par, i, _) => Count(|job.src|, par) - i
    case Streaming(stage) => StageWork(job, stage)
    case _ => 0
  }

  lemma {:induction false} LessFetchWork(job: Job, par: int, workers: seq<Worker.Worker>, i: nat, w: Worker.Worker)
    requires i < |workers|
    requires WorkerWork(w, RangeAt(|job.src|, par, i).end) < WorkerWork(workers[i], RangeAt(|job.src|, par, i).end)
    ensures FetchWork(job, par, workers[i := w]) < FetchWork(job, par, workers)
  {
    var n := |workers| - 1;
    if i == n {
      assert workers[i := w][..n] == workers[..n];
    } else {
      assert workers[i := w][..n] == workers[..n][i := w];
      LessFetchWork(job, par, workers[..n], i, w);
    }
  }

  /** The pull has not given up yet. */
  predicate Hopeful(pc: Pc) {
    match pc
    case Fetching(_, workers) => forall i | 0 <= i < |workers| :: workers[i] != Worker.Finished(Worker.GaveUp)
    case Cleaning(_, _, after) => !after.Raise? && !after.Abort?
    case Streaming(stage) => !stage.Dropping?
    case Done(result) => result.Returned?
    case _ => true
  }

  /** A step towards the end that does not give up. */
  ghost predicate Advances(job: Job, pc: Pc, pc': Pc) {
    && (Rank(pc') < Rank(pc) || (Rank(pc') == Rank(pc) && 0 <= Left(job, pc') < Left(job, pc)))
    && (Hopeful(pc) ==> Hopeful(pc'))
  }

  /** What an honest server does next for an unfinished worker. */
  function HonestEvent(w: Worker.Worker, r: Range): Event {
    match w
    case Streaming(_, next) => if next <= r.end then Piece(r.end + 1 - next) else End
    case _ => Ask(Ranged)
  }

  lemma HonestEventAdvances(src: Bytes, r: Range, retries: nat, w: Worker.Worker, part: Option<Bytes>)
    requires Within(r, |src|) && Worker.Inv(src, r, retries, w, part) && !w.Finished?
    ensures var w' := Worker.Step(src, r, retries, w, part, HonestEvent(w, r)).0;
            WorkerWork(w', r.end) < WorkerWork(w, r.end) && w' != Worker.Finished(Worker.GaveUp)
  {
  }

  lemma WorkAdvances(job: Job, procs: map<nat, Proc>, pid: nat, disk: Disk, i: nat) returns (a: Action)
    requires Ready(job, procs, pid, disk) && procs[pid].pc.Fetching?
    requires i < |procs[pid].pc.workers| && !procs[pid].pc.workers[i].Finished?
    ensures Advances(job, procs[pid].pc, ProcStep(job, procs, pid, disk, a).0.pc)
  {
    var par, workers := procs[pid].pc.par, procs[pid].pc.workers;
    var r, part := RangeAt(|job.src|, par, i), Get(disk, Part(pid, i));
    a := Work(i, HonestEvent(workers[i], r));
    HonestEventAdvances(job.src, r, job.retries, workers[i], part);
    var w := Worker.Step(job.src, r, job.retries, workers[i], part, HonestEvent(workers[i], r)).0;
    LessFetchWork(job, par, workers, i, w);
    assert ProcStep(job, procs, pid, disk, a).0.pc == Fetching(par, workers[i := w]);
  }

  lemma ReapAdvances(job: Job, procs: map<nat, Proc>, pid: nat, disk: Disk) returns (a: Action)
    requires Ready(job, procs, pid, disk) && procs[pid].pc.Reaping?
    ensures Advances(job, procs[pid].pc, ProcStep(job, procs, pid, disk, a).0.pc)
  {
    var todo := procs[pid].pc.todo;
    if todo == {} {
      a := Go;
    } else {
      EmptyOrNot(todo);
      var f :| f in todo;
      a := Check(f);
      assert |todo - {f}| == |todo| - 1;
    }
  }

  lemma FetchAdvances(job: Job, procs: map<nat, Proc>, pid: nat, disk: Disk) returns (a: Action)
    requires Ready(job, procs, pid, disk) && procs[pid].pc.Fetching?
    ensures Advances(job, procs[pid].pc, ProcStep(job, procs, pid, disk, a).0.pc)
  {
    var workers := procs[pid].pc.workers;
    if !AllFinished(workers) {
      var i :| 0 <= i < |workers| && !workers[i].Finished?;
      a := WorkAdvances(job, procs, pid, disk, i);
    } else if AllFetched(workers) {
      a := Go;
    } else {
      var i :| 0 <= i < |workers| && workers[i] != Worker.Finished(Worker.Fetched);
      a := Propagate(i);
    }
  }

  lemma JoinAdvances(job: Job, procs: map<nat, Proc>, pid: nat, disk: Disk) returns (a: Action)
    requires Ready(job, procs, pid, disk) && procs[pid].pc.Joining?
    ensures Advances(job, procs[pid].pc, ProcStep(job, procs, pid, disk, a).0.pc)
  {
    var Joining(par, k, copied, written) := procs[pid].pc;
    a := Go;
    if k < Count(|job.src|, par) {
      PartSize(job, disk, pid, par, k);
      var size := |disk[Part(pid, k)]|;
      if copied < size {
        a := Copy(size - copied);
      }
    }
  }

  lemma StreamAdvances(job: Job, procs: map<nat, Proc>, pid: nat, disk: Disk) returns (a: Action)
    requires Ready(job, procs, pid, disk) && procs[pid].pc.Streaming?
    ensures Advances(job, procs[pid].pc, ProcStep(job, procs, pid, disk, a).0.pc)
  {
    var stage := procs[pid].pc.stage;
    assert |Content(Get(disk, Tmp(pid)))| <= |job.src|;
    var m := match stage
      case Trying(_) => Single.Net(Ask(Whole))
      case Receiving(_, next, _) => Single.Net(if next < |job.src| then Piece(|job.src| - next) else End)
      case Saving(_) => Single.Replace(true)
      case _ => Single.Drop;
    a := Stream(m);
  }

  lemma SomeActionAdvances(job: Job, procs: map<nat, Proc>, pid: nat, disk: Disk) returns (a: Action)
    requires Ready(job, procs, pid, disk) && !procs[pid].pc.Idle? && !procs[pid].pc.Done?
    ensures Advances(job, procs[pid].pc, ProcStep(job, procs, pid, disk, a).0.pc)
  {
    var pc := procs[pid].pc;
    if pc.Reaping? {
      a := ReapAdvances(job, procs, pid, disk);
    } else if pc.Fetching? {
      a := FetchAdvances(job, procs, pid, disk);
    } else if pc.Joining? {
      a := JoinAdvances(job, procs, pid, disk);
    } else if pc.Streaming? {
      a := StreamAdvances(job, procs, pid, disk);
    } else {
      a := Go;
    }
  }

  lemma {:induction false} RunCons(job: Job, s: Sys, e: SysEvent, trace: seq<SysEvent>)
    ensures Run(job, s, [e] + trace) == Run(job, Next(job, s, e), trace)
  {
    var all := [e] + trace;
    if trace == [] {
      assert all[..|all| - 1] == [];
    } else {
      assert all[..|all| - 1] == [e] + trace[..|trace| - 1];
      RunCons(job, s, e, trace[..|trace| - 1]);
    }
  }

  /**
   * From every reachable state a live pull can be driven to its end by its own actions alone, so
   * nobody else can block it; and to a normal return as long as it has not given up.
   */
  lemma {:induction false} CanAlwaysFinish(job: Job, first: Option<Bytes>, s: Sys, pid: nat)
    returns (trace: seq<SysEvent>)
    requires Inv(job, first, s) && Alive(s.procs, pid) && !s.procs[pid].pc.Idle?
    ensures forall e | e in trace :: e.Act? && e.pid == pid
    ensures var t := Run(job, s, trace);
            && Alive(t.procs, pid) && t.procs[pid].pc.Done?
            && (Hopeful(s.procs[pid].pc) ==> t.procs[pid].pc.result.Returned?)
    decreases Rank(s.procs[pid].pc), Left(job, s.procs[pid].pc)
  {
    if s.procs[pid].pc.Done? {
      trace := [];
    } else {
      var a := SomeActionAdvances(job, s.procs, pid, s.disk);
      ActKeepsInv(job, first, s, pid, a);
      var s' := Next(job, s, Act(pid, a));
      assert s'.procs[pid].pc == ProcStep(job, s.procs, pid, s.disk, a).0.pc;
      assert !s'.procs[pid].pc.Idle?;
      var rest := CanAlwaysFinish(job, first, s', pid);
      trace := [Act(pid, a)] + rest;
      RunCons(job, s, Act(pid, a), rest);
    }
  }
}
