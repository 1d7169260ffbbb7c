/**
 * The database migration job racing the cancel endpoint. The job is the sequential program the
 * migrator runs; between any two of its actions, `Others` lets any number of cancel requests take
 * any number of their own steps. The job file is rewritten by both sides without a common lock,
 * and only the flip of the backend and the critical section of a cancel exclude each other.
 */
module MigrationJob {
  import TableCopy

  /** What the overlay names; `InProgress` stands for every transient state. */
  datatype Backend = DuckDb | SideCar | Cloud | InProgress

  datatype Status = Running | Success | Failed | Cancelled

  datatype StepName = Validate | Alembic | Backup | DataCopy | Verify | FlipBackend

  datatype JobFile = JobFile(status: Status, step: StepName)

  datatype Holder = Free | Migrator | Canceller | Stranger

  /** Where the cancel that holds the lock is in its critical section. */
  datatype Cancel = Outside | Entered | Read(seen: JobFile) | Touched(seen: JobFile) | Rewrote

  /** What the migrator has achieved, in order. */
  datatype Fact = Upgraded | Scrubbed | Checkpointed | BackedUp | Copied | Verified | FlipLanded | ReadBack
                | Mismatch | Reverted

  datatype Write = Write(byCancel: bool, backend: Backend)

  datatype Exit = Proceed | CancelSeen(step: StepName) | Unverified | Stopped | Error

  /** Under the lock a cancel refuses terminal jobs and jobs that have recorded the flip. */
  predicate Cancellable(job: JobFile) {
    job.status != Failed && job.status != Cancelled && job.step != FlipBackend
  }

  predicate Supported(source: Backend, target: Backend) {
    (source, target) in {(DuckDb, SideCar), (DuckDb, Cloud), (SideCar, Cloud), (Cloud, SideCar)}
  }

  /** Everything the path from `source` to `target` must achieve before the overlay may name the target. */
  function Groundwork(source: Backend, target: Backend): seq<Fact> {
    if source == DuckDb then
      if target == SideCar then [Upgraded, Scrubbed, Checkpointed, BackedUp, Copied, Verified]
      else [Upgraded, Checkpointed, Copied, Verified]
    else if source == SideCar then [Upgraded, BackedUp, Copied, Verified]
    else [Upgraded, Copied, Verified]
  }

  /**
   * The four paths. Each upgrades the schema first and copies and verifies last; a backup comes before the
   * copy on the way from DuckDB to the side-car and from the side-car to the cloud, and a scrub
   * and a checkpoint on the way out of DuckDB, the scrub only for the side-car.
   */
  lemma StepsOfEveryPath(source: Backend, target: Backend)
    ensures Supported(source, target) <==>
              || (source == DuckDb && target == SideCar) || (source == DuckDb && target == Cloud)
              || (source == SideCar && target == Cloud) || (source == Cloud && target == SideCar)
    ensures Supported(source, target) ==>
              var g := Groundwork(source, target);
              && |g| >= 3 && g[0] == Upgraded && g[|g| - 2..] == [Copied, Verified]
              && (forall i, j | 0 <= i < j < |g| :: g[i] != g[j])
              && (BackedUp in g[..|g| - 2] <==>
                    (source == DuckDb && target == SideCar) || (source == SideCar && target == Cloud))
              && (Scrubbed in g <==> source == DuckDb && target == SideCar)
              && (Checkpointed in g <==> source == DuckDb)
              && (forall f | f in g :: f in {Upgraded, Scrubbed, Checkpointed, BackedUp, Copied, Verified})
  {
    var g := Groundwork(source, target);
    assert BackedUp in g[..|g| - 2] <==> BackedUp in g by {
      assert g == g[..|g| - 2] + g[|g| - 2..];
    }
  }

  /** The facts of a run: groundwork in order, then at most a flip and its read-back, then at most one revert. */
  ghost predicate Legal(source: Backend, target: Backend, log: seq<Fact>) {
    var g := Groundwork(source, target);
    || log <= g + [FlipLanded, ReadBack]
    || log == g + [Mismatch]
    || (log != [] && log[|log| - 1] == Reverted && log[..|log| - 1] <= g + [FlipLanded])
  }

  /** A run that is still on its groundwork is legal and has not touched the overlay. */
  lemma GroundworkIsLegal(source: Backend, target: Backend, log: seq<Fact>)
    requires log <= Groundwork(source, target)
    ensures Legal(source, target, log) && log <= Groundwork(source, target) + [FlipLanded]
    ensures FlipLanded !in log && Mismatch !in log && Reverted !in log && ReadBack !in log
  {
    var g := Groundwork(source, target);
    assert FlipLanded !in g && Mismatch !in g && Reverted !in g && ReadBack !in g;
    assert log == g[..|log|];
  }

  lemma LandedIsLegal(source: Backend, target: Backend)
    ensures var log := Groundwork(source, target) + [FlipLanded];
            Legal(source, target, log) && FlipLanded in log && Mismatch !in log && Reverted !in log
  {
    var g := Groundwork(source, target);
    assert g + [FlipLanded] <= g + [FlipLanded, ReadBack];
    assert (g + [FlipLanded])[|g|] == FlipLanded;
  }

  lemma ReadBackIsLegal(source: Backend, target: Backend)
    ensures var g := Groundwork(source, target);
            var log := g + [FlipLanded] + [ReadBack];
            && Legal(source, target, log) && log == g + [FlipLanded, ReadBack]
            && FlipLanded in log && ReadBack in log && Mismatch !in log && Reverted !in log
  {
    var g := Groundwork(source, target);
    assert g + [FlipLanded] + [ReadBack] == g + [FlipLanded, ReadBack];
    assert (g + [FlipLanded, ReadBack])[|g|] == FlipLanded && (g + [FlipLanded, ReadBack])[|g| + 1] == ReadBack;
  }

  lemma RevertIsLegal(source: Backend, target: Backend, log: seq<Fact>)
    requires log <= Groundwork(source, target) + [FlipLanded]
    ensures Legal(source, target, log + [Reverted]) && Reverted in log + [Reverted]
    ensures Mismatch !in log + [Reverted] && (FlipLanded in log + [Reverted] <==> FlipLanded in log)
  {
    var g := Groundwork(source, target);
    assert Mismatch !in g + [FlipLanded];
    assert (log + [Reverted])[|log|] == Reverted && (log + [Reverted])[..|log|] == log;
  }

  /** A write of the migrator is the flip or the revert. */
  ghost predicate Owed(source: Backend, target: Backend, log: seq<Fact>, backend: Backend) {
    (backend == target && FlipLanded in log) || (backend == source && Reverted in log)
  }

  /** What the facts, the writes that landed and the overlay have to do with each other. */
  ghost predicate History(source: Backend, target: Backend, log: seq<Fact>, writes: seq<Write>,
                          overlay: Backend, restored: bool)
  {
    && (writes != [] ==> overlay == writes[|writes| - 1].backend)
    && (forall i, j | 0 <= i <= j < |writes| && writes[i].byCancel :: restored && writes[j].backend == source)
    && (forall i | 0 <= i < |writes| && !writes[i].byCancel :: Owed(source, target, log, writes[i].backend))
    && (overlay == target ==> FlipLanded in log)
    && Legal(source, target, log)
  }

  lemma RevertKeepsHistory(source: Backend, target: Backend, log: seq<Fact>, writes: seq<Write>,
                           overlay: Backend, restored: bool)
    requires History(source, target, log, writes, overlay, restored) && source != target
    requires log <= Groundwork(source, target) + [FlipLanded]
    ensures History(source, target, log + [Reverted], writes + [Write(false, source)], source, restored)
  {
    RevertIsLegal(source, target, log);
  }

  lemma LandKeepsHistory(source: Backend, target: Backend, writes: seq<Write>, overlay: Backend)
    requires History(source, target, Groundwork(source, target), writes, overlay, false)
    ensures var log := Groundwork(source, target) + [FlipLanded];
            History(source, target, log, writes + [Write(false, target)], target, false)
  {
    LandedIsLegal(source, target);
  }

  lemma RestoreKeepsHistory(source: Backend, target: Backend, log: seq<Fact>, writes: seq<Write>,
                            overlay: Backend, restored: bool)
    requires History(source, target, log, writes, overlay, restored) && source != target
    requires forall i | 0 <= i < |writes| :: writes[i].backend == source || !writes[i].byCancel
    ensures History(source, target, log, writes + [Write(true, source)], source, true)
  {
  }

  /** More facts keep the history, as long as the run stays legal. */
  lemma FactKeepsHistory(source: Backend, target: Backend, log: seq<Fact>, fact: Fact, writes: seq<Write>,
                         overlay: Backend, restored: bool)
    requires History(source, target, log, writes, overlay, restored) && Legal(source, target, log + [fact])
    ensures History(source, target, log + [fact], writes, overlay, restored)
  {
    assert forall x | x in log :: x in log + [fact];
  }

  class Migration {
    const source: Backend
    const target: Backend
    // between two Postgres databases: the target, what its schema upgrade makes of it, what is to be copied
    const db: TableCopy.Database
    const seeded: map<string, TableCopy.Table>
    const plan: TableCopy.Plan
    // shared state
    var job: JobFile
    var sentinel: bool
    var overlay: Backend
    var holder: Holder
    var cancel: Cancel
    // history
    ghost var log: seq<Fact>
    ghost var writes: seq<Write>   // the overlay writes that landed
    ghost var restored: bool       // a cancel has taken effect
    ghost var announced: bool      // the migrator has recorded the flip step
    ghost var committed: bool      // the migrator's check under the lock has passed
    ghost var faulted: bool        // some step of the job went wrong
    ghost var refusals: nat        // how often the lock was taken when the flip wanted it

    constructor (source: Backend, target: Backend, overlay: Backend,
                 db: TableCopy.Database, seeded: map<string, TableCopy.Table>, plan: TableCopy.Plan)
      requires Supported(source, target) && overlay != target
      ensures this.source == source && this.target == target && this.overlay == overlay
      ensures this.db == db && this.seeded == seeded && this.plan == plan
      ensures Preparing() && log == [] && writes == [] && !sentinel && !faulted
    {
      this.source, this.target, this.overlay := source, target, overlay;
      this.db, this.seeded, this.plan := db, seeded, plan;
      job, sentinel, holder, cancel := JobFile(Running, Validate), false, Free, Outside;
      log, writes, restored, announced, committed, faulted := [], [], false, false, false, false;
      refusals := 0;
    }

    ghost predicate HistoryInv()
      reads this`log, this`writes, this`overlay, this`restored
    {
      History(source, target, log, writes, overlay, restored)
    }

    ghost predicate Inv()
      reads this
    {
      && Supported(source, target)
      && HistoryInv()
      && (holder == Canceller <==> cancel != Outside)
      && (cancel.Touched? || cancel.Rewrote? ==> sentinel)
      && (sentinel ==> restored || cancel.Touched? || cancel.Rewrote?)
      && (restored ==> sentinel && overlay == source)
      && (announced ==> sentinel || job.step == FlipBackend)
      && (committed ==> announced && !sentinel && (cancel == Outside || cancel == Entered))
      && (job.status == Success ==> committed && overlay == target && ReadBack in log)
      && (cancel.Read? || cancel.Touched? ==> Cancellable(cancel.seen) && cancel.seen.status != Success)
      && (FlipLanded in log || Mismatch in log ==> committed)
    }

    /** A job that has succeeded is past the flip it recorded, so a cancel under the lock refuses it. */
    lemma SuccessIsFinal()
      requires Inv() && job.status == Success
      ensures !Cancellable(job)
    {
    }

    /** One step of the cancel endpoint, or of some unrelated user of the lock. */
    method CancelStep()
      requires Inv()
      modifies this`job, this`sentinel, this`overlay, this`holder, this`cancel, this`writes, this`restored
      ensures Inv() && Interference(old(job), old(sentinel), old(overlay), old(holder), old(writes), old(restored))
      ensures old(cancel) == Entered ==>
                if old(job.status) == Running && old(job.step) != FlipBackend then cancel == Read(old(job))
                else cancel == Outside && holder == Free
      ensures old(cancel).Read? ==> cancel == Touched(old(cancel).seen) && sentinel
      ensures old(cancel).Touched? ==> cancel == Rewrote && job == old(cancel).seen.(status := Cancelled)
      ensures old(cancel) == Rewrote ==> cancel == Outside && holder == Free && overlay == source && restored
      ensures old(cancel).Outside? ==> cancel == Outside || cancel == Entered
      ensures !old(cancel).Touched? ==> job == old(job)
      ensures !old(cancel).Read? ==> sentinel == old(sentinel)
      ensures !old(cancel).Rewrote? ==> overlay == old(overlay) && restored == old(restored)
    {
      match cancel {
        case Outside =>
          if holder == Free {
            var enter: bool := *;
            if enter {
              holder, cancel := Canceller, Entered;
            } else {
              holder := Stranger;
            }
          } else if holder == Stranger {
            holder := Free;
          }
        case Entered =>
          if Cancellable(job) {
            cancel := Read(job);
          } else {
            holder, cancel := Free, Outside;
          }
        case Read(seen) =>
          sentinel, cancel := true, Touched(seen);
        case Touched(seen) =>
          job, cancel := seen.(status := Cancelled), Rewrote;
        case Rewrote =>
          Restore();
      }
    }

    /**
     * A cancel that has the lock takes effect on every running job that has not recorded the flip: the
     * sentinel is there, the job file says so, the source is restored; and on no other.
     */
    method FinishCancel()
      requires Inv() && cancel == Entered
      modifies this`job, this`sentinel, this`overlay, this`holder, this`cancel, this`writes, this`restored
      ensures Inv() && holder == Free && cancel == Outside
      ensures old(job.status) == Running && old(job.step) != FlipBackend ==>
                restored && sentinel && overlay == source && job == old(job).(status := Cancelled)
      ensures old(job.status) != Running || old(job.step) == FlipBackend ==>
                job == old(job) && sentinel == old(sentinel) && overlay == old(overlay) && restored == old(restored)
    {
      CancelStep();
      if cancel != Outside {
        CancelStep();
        CancelStep();
        CancelStep();
      }
    }

    /** The last action of a cancel: restore the source and release the lock. */
    method Restore()
      requires Inv() && cancel == Rewrote
      modifies this`overlay, this`holder, this`cancel, this`writes, this`restored
      ensures Inv() && restored && overlay == source && holder == Free
    {
      RestoreKeepsHistory(source, target, log, writes, overlay, restored);
      overlay := source;
      writes := writes + [Write(true, source)];
      restored := true;
      holder, cancel := Free, Outside;
    }

    /** What the migrator may rely on across the steps of others. */
    ghost predicate Interference(job0: JobFile, sentinel0: bool, overlay0: Backend, holder0: Holder,
                                 writes0: seq<Write>, restored0: bool)
      reads this
    {
      && (sentinel0 ==> sentinel)
      && (restored0 ==> restored)
      && (holder == Migrator <==> holder0 == Migrator)
      && (!sentinel || committed || holder == Migrator ==>
            job == job0 && sentinel == sentinel0 && overlay == overlay0 && writes == writes0 && restored == restored0)
      && (overlay == overlay0 || overlay == source)
      && (job == job0 || job.status == Cancelled)
    }

    method Others()
      requires Inv()
      modifies this`job, this`sentinel, this`overlay, this`holder, this`cancel, this`writes, this`restored
      ensures Inv() && Interference(old(job), old(sentinel), old(overlay), old(holder), old(writes), old(restored))
    {
      var steps: nat := *;
      while steps > 0
        invariant Inv() && Interference(old(job), old(sentinel), old(overlay), old(holder), old(writes), old(restored))
      {
        CancelStep();
        steps := steps - 1;
      }
    }

    /** The migrator is at work, outside the lock, and has not announced the flip. */
    ghost predicate Preparing()
      reads this
    {
      && Inv() && holder != Migrator && !announced && !committed && log <= Groundwork(source, target)
      && (sentinel || job.status == Running)
    }

    /** Read, modify and write the job file; a cancel may land in between and be overwritten. */
    method UpdateStep(step: StepName)
      requires Preparing()
      modifies this
      ensures old(sentinel) ==> sentinel
      ensures Inv() && holder != Migrator && !committed && log == old(log)
      ensures announced == (step == FlipBackend) && faulted == old(faulted)
      ensures sentinel || (job.status == Running && job.step == step)
    {
      var data := job;
      Others();
      job := data.(step := step);
      announced := step == FlipBackend;
      Others();
    }

    /** A step boundary: record the step, then look for the cancel sentinel. */
    method Boundary(step: StepName) returns (seen: bool)
      requires Preparing() && step != FlipBackend
      modifies this
      ensures Preparing() && log == old(log) && (seen ==> sentinel) && faulted == old(faulted)
      ensures !sentinel ==> job.step == step
      ensures old(sentinel) ==> seen
    {
      UpdateStep(step);
      seen := sentinel;
    }

    /** A foreign step that succeeds or raises. */
    method Attempt(fact: Fact) returns (ok: bool)
      requires Preparing() && log + [fact] <= Groundwork(source, target)
      modifies this
      ensures Preparing() && log == (if ok then old(log) + [fact] else old(log)) && (old(sentinel) ==> sentinel)
      ensures faulted == (old(faulted) || !ok)
    {
      ok := *;
      if ok {
        Record(fact);
      } else {
        faulted := true;
      }
      Others();
    }

    ghost method Record(fact: Fact)
      requires Preparing() && log + [fact] <= Groundwork(source, target)
      modifies this`log
      ensures Preparing() && log == old(log) + [fact]
    {
      GroundworkIsLegal(source, target, log + [fact]);
      FactKeepsHistory(source, target, log, fact, writes, overlay, restored);
      log := log + [fact];
    }

    /** The job file has this status, unless a cancel has rewritten it since. */
    ghost predicate Marked(status: Status)
      reads this
    {
      job.status == status || (job.status == Cancelled && sentinel)
    }

    method Mark(status: Status)
      requires Inv() && holder != Migrator
      requires status == Success ==> committed && overlay == target && ReadBack in log
      modifies this
      ensures Inv() && holder != Migrator && log == old(log)
      ensures announced == old(announced) && committed == old(committed)
      ensures faulted == old(faulted) && (old(sentinel) ==> sentinel)
      ensures status == Success ==> job.status == Success
      ensures status != Success ==> job.status != Success
      ensures Marked(status) && (overlay == old(overlay) || overlay == source)
    {
      var data := job;
      Others();
      job := data.(status := status);
      Others();
    }

    /** Write the source back, as both exception handlers do. */
    method Revert()
      requires Inv() && holder != Migrator && job.status != Success
      requires log <= Groundwork(source, target) + [FlipLanded]
      modifies this
      ensures Inv() && holder != Migrator && log == old(log) + [Reverted]
      ensures overlay == source && job.status != Success && committed == old(committed)
      ensures faulted == old(faulted) && (old(sentinel) ==> sentinel) && Marked(old(job.status))
    {
      WriteSource();
      Others();
    }

    method WriteSource()
      requires Inv() && holder != Migrator && job.status != Success
      requires log <= Groundwork(source, target) + [FlipLanded]
      modifies this`overlay, this`writes, this`log
      ensures Inv() && overlay == source && log == old(log) + [Reverted]
    {
      RevertIsLegal(source, target, log);
      RevertKeepsHistory(source, target, log, writes, overlay, restored);
      overlay := source;
      writes := writes + [Write(false, source)];
      log := log + [Reverted];
    }

    /** Everything before the flip, along the path the source and target prescribe. */
    method Prepare() returns (exit: Exit)
      requires Preparing() && log == [] && DataOk()
      modifies this, db
      ensures Inv() && holder != Migrator && !committed && !exit.Unverified?
      ensures exit == Proceed ==> Preparing() && log == Groundwork(source, target)
      ensures exit.CancelSeen? || exit == Error ==> log <= Groundwork(source, target)
      ensures exit == Stopped ==> Marked(Failed) && StoppedShort()
      ensures job.status != Success
      ensures exit != Proceed ==> faulted || sentinel
      ensures exit == Proceed ==> DataSettled()
      ensures old(sentinel) ==> exit.CancelSeen? && log == []
    {
      var seen := Boundary(Alembic);
      if seen {
        return CancelSeen(Alembic);
      }
      var ok := Attempt(Upgraded);
      if !ok {
        return Error;
      }
      if source == DuckDb {
        exit := PrepareDuckDb();
      } else {
        db.tables := seeded;
        exit := PreparePostgres();
      }
      if exit == Proceed {
        exit := CopyAndVerify();
      }
    }

    ghost predicate Missing(rest: seq<Fact>)
      reads this
    {
      log + rest == Groundwork(source, target)
    }

    /**
     * A job that stopped on the spot: a failed backup restores the source; failed tables or findings of
     * the verification do not.
     */
    ghost predicate StoppedShort()
      reads this
    {
      || (log != [] && log[|log| - 1] == Reverted && overlay == source)
      || Missing([Copied, Verified]) || Missing([Verified])
    }

    method PrepareDuckDb() returns (exit: Exit)
      requires Preparing() && source == DuckDb && log == [Upgraded]
      modifies this
      ensures Preparing() && (exit == Proceed || exit.CancelSeen? || exit == Error)
      ensures exit == Proceed ==> Missing([Copied, Verified])
      ensures exit != Proceed ==> faulted || sentinel
      ensures old(sentinel) && target == SideCar ==> exit != Proceed && BackedUp !in log
    {
      if target == SideCar {
        var scrubbed := Attempt(Scrubbed);
        if !scrubbed {
          return Error;
        }
      }
      Record(Checkpointed); // best effort: a failed checkpoint is only logged
      if target == SideCar {
        var seen := Boundary(Backup);
        if seen {
          return CancelSeen(Backup);
        }
        var ok := Attempt(BackedUp);
        if !ok {
          return Error;
        }
      }
      exit := Proceed;
    }

    method PreparePostgres() returns (exit: Exit)
      requires Preparing() && source != DuckDb && log == [Upgraded]
      modifies this
      ensures Inv() && holder != Migrator && !committed
      ensures exit == Proceed || exit.CancelSeen? || exit == Error || exit == Stopped
      ensures exit != Stopped ==> Preparing()
      ensures exit == Stopped ==> Marked(Failed) && StoppedShort()
      ensures exit == Proceed ==> Missing([Copied, Verified])
      ensures exit != Proceed ==> faulted || sentinel
      ensures old(sentinel) && source == SideCar ==> exit.CancelSeen? && log == old(log)
    {
      if source == SideCar {
        var seen := Boundary(Backup);
        if seen {
          return CancelSeen(Backup);
        }
        var ok := Attempt(BackedUp);
        if !ok {
          Mark(Failed);
          Revert();
          return Stopped;
        }
      }
      exit := Proceed;
    }

    /** The per-table progress writes during the copy: more unlocked rewrites of the job file. */
    method ReportProgress()
      requires Preparing()
      modifies this
      ensures Preparing() && log == old(log) && faulted == old(faulted)
    {
      var tables: nat := *;
      while tables > 0
        invariant Preparing() && log == old(log) && faulted == old(faulted)
      {
        UpdateStep(DataCopy);
        tables := tables - 1;
      }
    }

    /** Between two Postgres databases, what is to be copied fits what the schema upgrade leaves. */
    ghost predicate DataOk()
      reads db
    {
      source != DuckDb ==> TableCopy.PlanOk(plan, db.clash, seeded)
    }

    /** Between two Postgres databases, every row of every stream has been offered to the target. */
    ghost predicate DataCopied()
      reads db
    {
      source != DuckDb ==>
        exists copied ::
          && db.Copied(seeded, db.tables, plan.names, plan.streams, copied)
          && |copied| == |plan.names| && db.AllRows(plan.names, plan.streams, copied)
    }

    /** Between two Postgres databases, every table is settled. */
    ghost predicate DataSettled()
      reads db
    {
      source != DuckDb ==> TableCopy.AllSettled(plan, db.clash, seeded, db.tables)
    }

    /** The copy itself: it completes, reports failed tables (from DuckDB only), or raises. */
    method CopyData() returns (exit: Exit)
      requires source != DuckDb ==> db.tables == seeded
      requires DataOk()
      modifies db
      ensures exit == Proceed || exit == Stopped || exit == Error
      ensures exit == Proceed ==> DataCopied()
    {
      if source == DuckDb {
        exit := *;
        if exit != Stopped && exit != Error {
          exit := Proceed;
        }
      } else {
        ghost var copied: seq<nat>;
        var ok: bool;
        ok, copied := db.CopyAll(plan.names, plan.streams, plan.batchSize);
        exit := if ok then Proceed else Error;
      }
    }

    /** The verification itself: no findings, findings, or a missing table, which raises. */
    method VerifyData() returns (exit: Exit)
      requires DataOk() && DataCopied()
      ensures exit == Proceed || exit == Stopped || exit == Error
      ensures exit == Proceed ==> DataSettled()
    {
      if source == DuckDb {
        exit := *;
        if exit != Stopped && exit != Error {
          exit := Proceed;
        }
      } else {
        var verdict := TableCopy.VerifyTables(plan.names, plan.widths, plan.source, db.tables);
        if verdict == TableCopy.Diffs([]) {
          ghost var copied :| && db.Copied(seeded, db.tables, plan.names, plan.streams, copied)
                              && |copied| == |plan.names| && db.AllRows(plan.names, plan.streams, copied);
          db.VerifiedSettles(plan, seeded, db.tables, copied);
        }
        exit := if verdict.TableMissing? then Error else if verdict.diffs == [] then Proceed else Stopped;
      }
    }

    /** Take a step's outcome into the record: a fact, a failure marked on the spot, or an exception. */
    method Conclude(outcome: Exit, fact: Fact) returns (exit: Exit)
      requires Preparing() && log + [fact] <= Groundwork(source, target)
      requires outcome == Proceed || outcome == Stopped || outcome == Error
      modifies this
      ensures exit == outcome && Inv() && holder != Migrator && !committed
      ensures exit != Stopped ==> Preparing()
      ensures log == if exit == Proceed then old(log) + [fact] else old(log)
      ensures exit != Proceed ==> faulted
      ensures exit == Stopped ==> Marked(Failed)
    {
      exit := outcome;
      if outcome == Proceed {
        Record(fact);
      } else {
        faulted := true;
      }
      if outcome == Stopped {
        Mark(Failed);
      } else {
        Others();
      }
    }

    method CopyAndVerify() returns (exit: Exit)
      requires Preparing() && Missing([Copied, Verified]) && DataOk() && (source != DuckDb ==> db.tables == seeded)
      modifies this, db
      ensures Inv() && holder != Migrator && !committed && log <= Groundwork(source, target)
      ensures exit == Proceed || exit.CancelSeen? || exit == Error || exit == Stopped
      ensures exit == Stopped ==> Marked(Failed) && StoppedShort()
      ensures exit == Proceed ==> Preparing() && log == Groundwork(source, target) && DataSettled()
      ensures exit != Proceed ==> faulted || sentinel
    {
      exit := CopyStep();
      if exit == Proceed {
        exit := VerifyStep();
      }
    }

    method CopyStep() returns (exit: Exit)
      requires Preparing() && Missing([Copied, Verified]) && DataOk() && (source != DuckDb ==> db.tables == seeded)
      modifies this, db
      ensures Inv() && holder != Migrator && !committed && log <= Groundwork(source, target)
      ensures exit == Proceed || exit.CancelSeen? || exit == Error || exit == Stopped
      ensures exit == Stopped ==> Marked(Failed) && StoppedShort()
      ensures exit == Proceed ==> Preparing() && Missing([Verified]) && DataCopied()
      ensures exit != Proceed ==> faulted || sentinel
      ensures old(sentinel) ==> exit.CancelSeen? && log == old(log) && db.tables == old(db.tables)
    {
      var seen := Boundary(DataCopy);
      if seen {
        return CancelSeen(DataCopy);
      }
      ReportProgress();
      exit := CopyData();
      assert log + [Copied] + [Verified] == log + [Copied, Verified];
      exit := Conclude(exit, Copied);
    }

    method VerifyStep() returns (exit: Exit)
      requires Preparing() && Missing([Verified]) && DataOk() && DataCopied()
      modifies this
      ensures Inv() && holder != Migrator && !committed && log <= Groundwork(source, target)
      ensures exit == Proceed || exit.CancelSeen? || exit == Error || exit == Stopped
      ensures exit == Stopped ==> Marked(Failed) && StoppedShort()
      ensures exit == Proceed ==> Preparing() && log == Groundwork(source, target) && DataSettled()
      ensures exit != Proceed ==> faulted || sentinel
      ensures old(sentinel) ==> exit.CancelSeen? && log == old(log)
    {
      var seen := Boundary(Verify);
      if seen {
        return CancelSeen(Verify);
      }
      exit := VerifyData();
      exit := Conclude(exit, Verified);
    }

    /** What the flip leaves behind, by the way it ended. */
    ghost predicate FlipEnd(exit: Exit)
      reads this
    {
      var g := Groundwork(source, target);
      && job.status != Success
      && (exit == Proceed || faulted || sentinel)
      && match exit
         case Proceed => committed && overlay == target && log == g + [FlipLanded, ReadBack]
         case Unverified => log == g + [Mismatch]
         case CancelSeen(_) => log == g
         case Error => log == g || log == g + [FlipLanded]
         case Stopped => false
    }

    /** The check and the flip, both under the lock, and the read-back of what was written. */
    method FlipAndVerify() returns (exit: Exit)
      requires Inv() && holder == Migrator && announced && !committed && log == Groundwork(source, target)
      requires sentinel || job.status == Running
      modifies this
      ensures Inv() && holder == Migrator && FlipEnd(exit)
      ensures exit == Error ==> committed
      ensures old(sentinel) ==> exit.CancelSeen? && log == old(log)
    {
      if sentinel || job.status == Cancelled {
        return CancelSeen(FlipBackend);
      }
      committed := true;
      Others();
      var landed: bool := *;
      if landed {
        Land();
      } else {
        faulted := true;
      }
      exit := ReadItBack();
    }

    /** Confirm that the overlay names the target now; the write or the read may also have raised. */
    method ReadItBack() returns (exit: Exit)
      requires Inv() && holder == Migrator && committed && job.status != Success
      requires if overlay == target then log == Groundwork(source, target) + [FlipLanded]
               else log == Groundwork(source, target) && faulted
      modifies this
      ensures Inv() && holder == Migrator && FlipEnd(exit) && committed
    {
      Others();
      var raised: bool := *;
      if raised {
        faulted := true;
        return Error;
      }
      if overlay != target {
        Reject();
        exit := Unverified;
      } else {
        Confirm();
        exit := Proceed;
      }
    }

    ghost method Confirm()
      requires Inv() && committed && overlay == target && log == Groundwork(source, target) + [FlipLanded]
      modifies this`log
      ensures Inv() && log == Groundwork(source, target) + [FlipLanded, ReadBack]
    {
      LandedIsLegal(source, target);
      ReadBackIsLegal(source, target);
      FactKeepsHistory(source, target, log, ReadBack, writes, overlay, restored);
      log := log + [ReadBack];
    }

    ghost method Reject()
      requires Inv() && committed && overlay != target && log == Groundwork(source, target) && job.status != Success
      modifies this`log
      ensures Inv() && log == Groundwork(source, target) + [Mismatch]
    {
      GroundworkIsLegal(source, target, log);
      FactKeepsHistory(source, target, log, Mismatch, writes, overlay, restored);
      log := log + [Mismatch];
    }

    /** The overlay write that names the target. */
    method Land()
      requires Inv() && holder == Migrator && committed && log == Groundwork(source, target) && job.status != Success
      modifies this
      ensures Inv() && holder == Migrator && committed && overlay == target && job == old(job)
      ensures log == Groundwork(source, target) + [FlipLanded] && faulted == old(faulted)
    {
      GroundworkIsLegal(source, target, log);
      LandedIsLegal(source, target);
      LandKeepsHistory(source, target, writes, overlay);
      overlay := target;
      writes := writes + [Write(false, target)];
      log := log + [FlipLanded];
    }

    method TryLock() returns (acquired: bool)
      requires Inv() && holder != Migrator
      modifies this`holder, this`refusals
      ensures Inv() && (holder == Migrator <==> acquired) && (acquired <==> old(holder) == Free)
      ensures refusals == old(refusals) + if acquired then 0 else 1
    {
      acquired := holder == Free;
      if acquired {
        holder := Migrator;
      } else {
        refusals := refusals + 1;
      }
    }

    /** Take the lock, or give up when it was taken by others twice. */
    method Acquire() returns (acquired: bool)
      requires Inv() && holder != Migrator && !committed && (sentinel || job.status == Running)
      modifies this`job, this`sentinel, this`overlay, this`holder, this`cancel, this`writes, this`restored,
               this`refusals
      ensures Inv() && (holder == Migrator <==> acquired) && (sentinel || job.status == Running)
      ensures if acquired then refusals <= 1 else refusals == 2
      ensures old(job.status) != Success ==> job.status != Success
      ensures old(sentinel) ==> sentinel
    {
      refusals := 0;
      acquired := TryLock();
      if !acquired {
        Others();
        acquired := TryLock();
      }
    }

    /** Announce the flip, take the lock (retrying once), flip, release. */
    method Flip() returns (exit: Exit)
      requires Preparing() && log == Groundwork(source, target)
      modifies this
      ensures Inv() && holder != Migrator && FlipEnd(exit)
      ensures exit == Error && !committed ==> refusals == 2
      ensures old(sentinel) ==> log == old(log) && exit != Proceed
    {
      UpdateStep(FlipBackend);
      var acquired := Acquire();
      if acquired {
        exit := FlipAndVerify();
        Release(exit);
      } else {
        faulted := true;
        exit := Error;
      }
    }

    method Release(ghost exit: Exit)
      requires Inv() && holder == Migrator && FlipEnd(exit)
      modifies this
      ensures Inv() && holder != Migrator && FlipEnd(exit) && committed == old(committed)
    {
      holder := Free;
      Others();
    }

    /** How the exit code goes with the run that produced it. */
    ghost predicate Outcome(code: int)
      reads this
    {
      && Inv()
      && (job.status == Success ==> code == 0 && log == Groundwork(source, target) + [FlipLanded, ReadBack])
      && (Mismatch in log ==> code == 1)
    }

    /** The end of the job: success, or the exception handler that fits. */
    method Settle(exit: Exit) returns (code: int)
      requires Inv() && holder != Migrator && job.status != Success
      requires FlipEnd(exit) || (exit != Proceed && !committed)
      requires exit.CancelSeen? || exit == Error ==> log <= Groundwork(source, target) + [FlipLanded]
      modifies this
      ensures Outcome(code)
      ensures job.status == Success <==> exit == Proceed
      ensures faulted == old(faulted) && (old(sentinel) ==> sentinel)
      ensures exit.CancelSeen? || exit == Error ==> overlay == source && log == old(log) + [Reverted]
      ensures !exit.CancelSeen? && exit != Error ==>
                log == old(log) && (overlay == old(overlay) || overlay == source)
      ensures exit.CancelSeen? ==> code == 0 && job.status == Cancelled
      ensures exit == Error || exit == Unverified ==> code == 1 && Marked(Failed)
      ensures exit == Stopped ==> code == 1 && job == old(job)
    {
      LegalFacts(source, target, log);
      match exit {
        case Proceed =>
          Mark(Success);
          code := 0;
        case CancelSeen(_) =>
          Mark(Cancelled);
          Revert();
          code := 0;
        case Unverified =>
          Mark(Failed);
          code := 1;
        case Stopped =>
          code := 1;
        case Error =>
          Revert();
          Mark(Failed);
          code := 1;
      }
    }

    lemma Concluded(code: int)
      requires Outcome(code)
      ensures job.status == Success ==> overlay == target && !sentinel && !restored
      ensures restored ==> overlay == source && job.status != Success
      ensures forall i, j | 0 <= i <= j < |writes| && writes[i].byCancel :: writes[j].backend == source
      ensures (exists w | w in writes :: w.backend == target) ==> Groundwork(source, target) + [FlipLanded] <= log
      ensures Mismatch in log ==> writes == []
    {
      LegalFacts(source, target, log);
      forall w | w in writes
        ensures w.byCancel ==> w.backend == source && restored
        ensures !w.byCancel ==> Owed(source, target, log, w.backend)
      {
        var i :| 0 <= i < |writes| && writes[i] == w;
      }
    }

    /**
     * A job that has ended without success has restored the source last, or a cancel has; but for a
     * read-back that mismatched, failed tables, findings of the verification, and a job that never began.
     */
    ghost predicate Restored()
      reads this
    {
      || job.status == Success || overlay == source
      || log == [] || Mismatch in log || Missing([Copied, Verified]) || Missing([Verified])
    }

    /**
     * The whole job. Whatever the steps do and however cancels interleave:
     * a success means the overlay names the target, no cancel took effect and the prescribed
     * groundwork was all done in order; a cancel that took effect leaves the overlay on the source,
     * and nothing but the source is written after it; the target is never written before the
     * groundwork is complete; a run whose read-back mismatches writes nothing at all; a job that
     * does not end in success was cancelled, lacked its source URL, or had a step go wrong; and a
     * successful job between two Postgres databases leaves every table settled. A job that ends
     * otherwise is recorded as failed or cancelled and leaves the source restored, with the
     * exceptions that `Restored` names; the exit code is 0 for a success or a cancel seen, else 1.
     */
    method Migrate(sourceUrlGiven: bool) returns (code: int)
      requires Preparing() && log == [] && DataOk()
      modifies this, db
      ensures Inv() && Legal(source, target, log)
      ensures job.status == Success ==>
                && code == 0 && overlay == target && !sentinel && !restored
                && log == Groundwork(source, target) + [FlipLanded, ReadBack]
      ensures restored ==> overlay == source && job.status != Success
      ensures forall i, j | 0 <= i <= j < |writes| && writes[i].byCancel :: writes[j].backend == source
      ensures (exists w | w in writes :: w.backend == target) ==> Groundwork(source, target) + [FlipLanded] <= log
      ensures Mismatch in log ==> writes == [] && code == 1
      ensures job.status == Success || faulted || sentinel || (source != DuckDb && !sourceUrlGiven)
      ensures job.status == Success ==> DataSettled()
      ensures source != DuckDb && !sourceUrlGiven ==> log == [] && job.status != Success
      ensures old(sentinel) ==> log == [] && job.status == Cancelled && code == 0
      ensures Restored()
      ensures if code == 0 then job.status == Success || job.status == Cancelled else code == 1 && Marked(Failed)
    {
      job := JobFile(Running, Validate);
      Others();
      if sentinel {
        Mark(Cancelled);
        code := 0;
      } else if source != DuckDb && !sourceUrlGiven {
        Mark(Failed);
        code := 1;
      } else {
        var exit := Prepare();
        if exit == Proceed {
          exit := Flip();
        }
        code := Settle(exit);
      }
      Concluded(code);
    }
  }

  /** What a legal run's facts say about the flip and about a mismatch. */
  lemma LegalFacts(source: Backend, target: Backend, log: seq<Fact>)
    requires Legal(source, target, log)
    ensures FlipLanded in log ==> Groundwork(source, target) + [FlipLanded] <= log
    ensures Mismatch in log ==> FlipLanded !in log && Reverted !in log
  {
    var g := Groundwork(source, target);
    assert FlipLanded !in g && Mismatch !in g && Reverted !in g;
    if log != [] && log[|log| - 1] == Reverted {
      assert log == log[..|log| - 1] + [Reverted];
    }
  }
}
