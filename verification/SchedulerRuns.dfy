/** What holds in every run of the scheduler. */
module SchedulerRuns {
  import opened Cascade
  import opened Cycle
  import opened Graph
  import opened Handlers
  import opened Model
  import opened Propagation
  import opened StoreView
  import opened WorkflowRuns
  import Engine
  import NodeFilter
  import Outcomes
  import Runs

  ghost predicate IsRun(maxRetries: nat, worlds: seq<World>, steps: seq<Step>) {
    && |worlds| == |steps| + 1 && worlds[0].db.jobs == map[] && worlds[0].db.units == map[]
    && forall k :: 0 <= k < |steps| ==> Next(maxRetries, worlds[k], steps[k], worlds[k + 1])
  }

  ghost predicate IsWellBehaved(worlds: seq<World>, steps: seq<Step>)
    requires |worlds| == |steps| + 1
  {
    forall k :: 0 <= k < |steps| ==> WellBehaved(worlds[k], steps[k])
  }

  // ---------- order ----------

  lemma StepKeepsOrder(maxRetries: nat, w: World, step: Step, w': World)
    requires Sound(w.db) && Next(maxRetries, w, step, w') && WellBehaved(w, step)
    ensures Sound(w'.db)
  {
    match step {
      case Submit(job, split) => SubmitKeeps(w.db, w'.db, job, split);
      case SubmitRejected(job, split) => RejectedKeeps(w.db, w'.db, job, split);
      case Report(unitID, status, exitCode, errorMessage, now) =>
        ReportKeeps(w.db, w'.db, maxRetries, unitID, status, exitCode, errorMessage, now);
      case Cycle(cfg, message, now) => CycleKeeps(cfg, w.nodes, w.db, w'.db, message, now);
      case Pull(cfg, nodeID, given) => PullKeeps(cfg, w.nodes, w.db, w'.db, nodeID, given);
      case Cancel(jobID, now) => CancelKeeps(w.db, w'.db, jobID, now);
      case Unregister(nodeID, now) => UnregisterKeeps(w.db, w'.db, nodeID, now);
      case Elsewhere => StepKeepsShape(maxRetries, w, step, w'); ElsewhereKeeps(w.db, w'.db);
    }
  }

  lemma ElsewhereKeeps(before: Db, after: Db)
    requires InOrder(before) && after.jobs == before.jobs && after.units == before.units
    ensures InOrder(after)
  {
    forall j, k | j in after.jobs && 0 <= k < |after.jobs[j].stages|
      ensures StageInOrder(after, after.jobs[j], k)
    {
      assert StageInOrder(before, before.jobs[j], k);
    }
    forall u | u in after.units
      ensures UnitInOrder(after, after.units[u])
    {
      assert UnitInOrder(before, before.units[u]);
    }
  }

  lemma RunIsSound(maxRetries: nat, worlds: seq<World>, steps: seq<Step>, t: nat)
    requires IsRun(maxRetries, worlds, steps) && IsWellBehaved(worlds, steps) && t < |worlds|
    ensures Sound(worlds[t].db)
  {
    var next := (w: World, step: Step, w': World) => Next(maxRetries, w, step, w') && WellBehaved(w, step);
    var inv := (w: World) => Sound(w.db);
    forall w, step, w' | inv(w) && next(w, step, w')
      ensures inv(w')
    {
      StepKeepsOrder(maxRetries, w, step, w');
    }
    Runs.Invariant(worlds, steps, next, inv, t);
  }

  /** In a run of well-behaved agents, once a unit of a workflow has been given to a node,
      every stage that its stage needs, directly or through others, is completed, and so are
      all units of that stage. */
  lemma RequiredStagesComplete(maxRetries: nat, worlds: seq<World>, steps: seq<Step>, t: nat, u: string, k: nat)
    requires IsRun(maxRetries, worlds, steps) && IsWellBehaved(worlds, steps) && t < |worlds|
    requires u in worlds[t].db.units && Begun(worlds[t].db.units[u].status)
    requires worlds[t].db.units[u].jobID in worlds[t].db.jobs
    requires
      var job := worlds[t].db.jobs[worlds[t].db.units[u].jobID];
      job.jobType == Workflow && k < |job.stages| && Needs(job.stages, job.stages[k].id, worlds[t].db.units[u].stageID)
    ensures
      var job := worlds[t].db.jobs[worlds[t].db.units[u].jobID];
      job.stages[k].status == StageCompleted && AllUnits(worlds[t].db.units, job.stages[k].id, IsCompleted)
  {
    RunIsSound(maxRetries, worlds, steps, t);
    var db := worlds[t].db;
    var jobID, stageID := db.units[u].jobID, db.units[u].stageID;
    var stages := db.jobs[jobID].stages;
    assert UnitInOrder(db, db.units[u]);
    var p :| IsPath(Downstream(stages), p) && p[0] == stages[k].id && p[|p| - 1] == stageID;
    PathCompletes(db, jobID, p, k);
  }

  /** Back along a path of dependencies from an unlocked stage, everything is completed. */
  lemma {:induction false} PathCompletes(db: Db, jobID: string, p: seq<string>, k: nat)
    requires Sound(db) && jobID in db.jobs && db.jobs[jobID].jobType == Workflow
    requires IsPath(Downstream(db.jobs[jobID].stages), p) && |p| >= 2 && Unlocked(db.jobs[jobID], p[|p| - 1])
    requires k < |db.jobs[jobID].stages| && db.jobs[jobID].stages[k].id == p[0]
    ensures db.jobs[jobID].stages[k].status == StageCompleted && AllUnits(db.units, p[0], IsCompleted)
    decreases |p|
  {
    var n := |p| - 1;
    var stages := db.jobs[jobID].stages;
    assert Downstream(stages)(p[n - 1], p[n - 1 + 1]);
    FeederCompleted(db, jobID, p[n - 1], p[n]);
    if n > 1 {
      SubPath(Downstream(stages), p, 0, n - 1);
      assert p[0..n - 1 + 1][n - 1] == p[n - 1];
      PathCompletes(db, jobID, p[0..n - 1 + 1], k);
    } else {
      assert UniqueIds(stages);
    }
  }

  /** What an unlocked stage depends on directly is completed, and itself unlocked. */
  lemma FeederCompleted(db: Db, jobID: string, a: string, b: string)
    requires Sound(db) && jobID in db.jobs && db.jobs[jobID].jobType == Workflow
    requires Feeds(db.jobs[jobID].stages, a, b) && Unlocked(db.jobs[jobID], b)
    ensures Unlocked(db.jobs[jobID], a) && AllUnits(db.units, a, IsCompleted)
    ensures forall m :: 0 <= m < |db.jobs[jobID].stages| && db.jobs[jobID].stages[m].id == a ==>
      db.jobs[jobID].stages[m].status == StageCompleted
  {
    var job := db.jobs[jobID];
    var m := CompletedFeeder(job, a, b);
    assert StageInOrder(db, job, m);
    forall k | 0 <= k < |job.stages| && job.stages[k].id == a
      ensures job.stages[k].status == StageCompleted
    {
      assert UniqueIds(job.stages);
    }
  }

  lemma CompletedFeeder(job: Job, a: string, b: string) returns (m: nat)
    requires job.jobType == Workflow && Feeds(job.stages, a, b) && Unlocked(job, b)
    ensures m < |job.stages| && job.stages[m].id == a && job.stages[m].status == StageCompleted
  {
    var stages := job.stages;
    var i, d :| 0 <= i < |stages| && stages[i].id == b && d in stages[i].dependsOn && Cascade.Names(stages, d, a);
    assert DepCompleted(stages, d);
    m :| m < |stages| && stages[m] == FirstNamed(stages, d).value;
  }

  // ---------- why agents must behave ----------

  lemma {:induction false} NamedAfterSet(stages: seq<Stage>, id: string, status: StageStatus, name: string)
    requires UniqueIds(stages) && Cascade.Names(stages, name, id)
    ensures FirstNamed(SetStage(stages, id, status), name).Some?
    ensures FirstNamed(SetStage(stages, id, status), name).value.status == status
    decreases |stages|
  {
    var s := FirstNamed(stages, name).value;
    var k :| 0 <= k < |stages| && stages[k] == s;
    if stages[0].id == id {
      assert k == 0;
    } else {
      NamedAfterSet(stages[1..], id, status, name);
    }
  }

  lemma {:induction false} SetKeepsShape(stages: seq<Stage>, id: string, status: StageStatus)
    ensures SameShape(stages, SetStage(stages, id, status))
    decreases |stages|
  {
    if stages != [] { SetKeepsShape(stages[1..], id, status); }
  }

  lemma DependentLocked(stages: seq<Stage>, j: Job, a: string, b: string, status: StageStatus)
    requires UniqueIds(stages) && Feeds(stages, a, b) && status != StageCompleted
    requires j.jobType == Workflow && j.stages == SetStage(stages, a, status) && SameShape(stages, j.stages)
    ensures !Unlocked(j, b)
  {
    var m, d :| 0 <= m < |stages| && stages[m].id == b && d in stages[m].dependsOn && Cascade.Names(stages, d, a);
    NamedAfterSet(stages, a, status, d);
    assert !DepCompleted(j.stages, d) && d in j.stages[m].dependsOn;
  }

  lemma RunningAgain(mid: Db, after: Db, jobID: string, stageID: string, now: int)
    requires jobID in mid.jobs && (exists i :: 0 <= i < |mid.jobs[jobID].stages| && mid.jobs[jobID].stages[i].id == stageID)
    requires SomeUnit(mid.units, stageID, Cancellable) && Propagated(mid, after, jobID, stageID, now)
    ensures jobID in after.jobs && after.jobs[jobID].jobType == mid.jobs[jobID].jobType && after.units == mid.units
    ensures after.jobs[jobID].stages == SetStage(mid.jobs[jobID].stages, stageID, StageRunning)
  {
    CancelNothing(mid.units, now);
  }

  /** A stale report breaks the order: when a unit that is completed is reported as running
      again, its stage is no longer completed, while a unit of a stage that depends on it
      has begun. */
  lemma StaleReportBreaksOrder(before: Db, after: Db, maxRetries: nat, u: string, v: string, exitCode: int,
                               errorMessage: string, now: int)
    requires Sound(before) && u != "" && u in before.units && v in before.units
    requires before.units[u].status == UnitStatus.Completed && Begun(before.units[v].status)
    requires before.units[u].jobID == before.units[v].jobID && before.units[u].jobID in before.jobs
    requires
      var job := before.jobs[before.units[u].jobID];
      job.jobType == Workflow && Feeds(job.stages, before.units[u].stageID, before.units[v].stageID)
    requires ReportDone(before, after, maxRetries, u, Running, exitCode, errorMessage, now)
    ensures !InOrder(after)
  {
    var jobID, stageID := before.units[u].jobID, before.units[u].stageID;
    var stages := before.jobs[jobID].stages;
    var mid := before.(units := before.units[u := UnitWith(before.units[u], Running, exitCode, errorMessage, now)]);
    assert SomeUnit(mid.units, stageID, Cancellable) by { assert mid.units[u].stageID == stageID; }
    assert UniqueIds(stages);
    LockedAgain(mid, after, jobID, stageID, before.units[v].stageID, now);
    assert !UnitInOrder(after, after.units[v]);
  }

  lemma LockedAgain(mid: Db, after: Db, jobID: string, a: string, b: string, now: int)
    requires jobID in mid.jobs && mid.jobs[jobID].jobType == Workflow && UniqueIds(mid.jobs[jobID].stages)
    requires Feeds(mid.jobs[jobID].stages, a, b) && SomeUnit(mid.units, a, Cancellable)
    requires Propagated(mid, after, jobID, a, now)
    ensures jobID in after.jobs && !Unlocked(after.jobs[jobID], b) && after.units == mid.units
  {
    var stages := mid.jobs[jobID].stages;
    FeederIsStage(stages, a, b);
    RunningAgain(mid, after, jobID, a, now);
    SetKeepsShape(stages, a, StageRunning);
    DependentLocked(stages, after.jobs[jobID], a, b, StageRunning);
  }

  lemma FeederIsStage(stages: seq<Stage>, a: string, b: string)
    requires Feeds(stages, a, b)
    ensures exists i :: 0 <= i < |stages| && stages[i].id == a
  {
    var m, d :| 0 <= m < |stages| && stages[m].id == b && d in stages[m].dependsOn && Cascade.Names(stages, d, a);
    var k :| 0 <= k < |stages| && stages[k] == FirstNamed(stages, d).value;
  }

  // ---------- assignments, whatever the agents report ----------

  lemma RunIsWellFormed(maxRetries: nat, worlds: seq<World>, steps: seq<Step>, t: nat)
    requires IsRun(maxRetries, worlds, steps) && t < |worlds|
    ensures WellFormed(worlds[t].db)
  {
    var next := (w: World, step: Step, w': World) => Next(maxRetries, w, step, w');
    var inv := (w: World) => WellFormed(w.db);
    forall w, step, w' | inv(w) && next(w, step, w')
      ensures inv(w')
    {
      StepKeepsShape(maxRetries, w, step, w');
    }
    Runs.Invariant(worlds, steps, next, inv, t);
  }

  /** The unit may be assigned: its job goes on, and in a workflow the stages that its stage
      depends on are completed. */
  ghost predicate MayStart(db: Db, u: Unit) {
    u.jobID in db.jobs && Live(db.jobs[u.jobID]) && Unlocked(db.jobs[u.jobID], u.stageID)
  }

  lemma PushedMayStart(cfg: Settings, nodes: map<string, Node>, db: Db, a: Unit, b: Unit, now: int)
    requires WellFormed(db) && UnitCycled(cfg, nodes, db, a, b, now) && b.status == Assigned && a.status != Assigned
    ensures MayStart(db, a)
  {
    var job := db.jobs[a.jobID];
    assert UniqueIds(job.stages);
    if job.jobType == Workflow { ReadyIsUnlocked(job, a.stageID); }
  }

  lemma CycleMayStart(cfg: Settings, nodes: map<string, Node>, before: Db, after: Db, message: string, now: int, u: string)
    requires WellFormed(before) && CycleDone(cfg, nodes, before, after, message, now) && u in before.units && u in after.units
    requires before.units[u].status != Assigned && after.units[u].status == Assigned
    ensures MayStart(before, before.units[u])
  {
    var mid := ReclaimedShape(before, nodes, message, now);
    PushedMayStart(cfg, nodes, mid, mid.units[u], after.units[u], now);
  }

  lemma ReclaimedShape(before: Db, nodes: map<string, Node>, message: string, now: int) returns (mid: Db)
    requires WellFormed(before)
    ensures mid == before.(units := Reclaimed(before.units, nodes, message, now)) && WellFormed(mid)
  {
    mid := before.(units := Reclaimed(before.units, nodes, message, now));
    RewrittenShape(before, mid, IsActive(), IsStranded(nodes), UnitStatus.Failed, message, now);
    WellFormedKept(before, mid);
  }

  /** In any run, a cycle or a pull assigns a unit only when it may start. */
  lemma AssignedInOrder(maxRetries: nat, worlds: seq<World>, steps: seq<Step>, t: nat, u: string)
    requires IsRun(maxRetries, worlds, steps) && t < |steps| && (steps[t].Cycle? || steps[t].Pull?)
    requires u in worlds[t].db.units && u in worlds[t + 1].db.units
    requires worlds[t].db.units[u].status != Assigned && worlds[t + 1].db.units[u].status == Assigned
    ensures MayStart(worlds[t].db, worlds[t].db.units[u])
  {
    RunIsWellFormed(maxRetries, worlds, steps, t);
    assert Next(maxRetries, worlds[t], steps[t], worlds[t + 1]);
    StepMayStart(maxRetries, worlds[t], steps[t], worlds[t + 1], u);
  }

  lemma StepMayStart(maxRetries: nat, w: World, step: Step, w': World, u: string)
    requires WellFormed(w.db) && Next(maxRetries, w, step, w') && (step.Cycle? || step.Pull?)
    requires u in w.db.units && u in w'.db.units && w.db.units[u].status != Assigned && w'.db.units[u].status == Assigned
    ensures MayStart(w.db, w.db.units[u])
  {
    if step.Cycle? {
      CycleMayStart(step.cfg, w.nodes, w.db, w'.db, step.message, step.now, u);
    } else {
      var unit := w.db.units[u];
      var job := w.db.jobs[unit.jobID];
      assert UniqueIds(job.stages);
      if job.jobType == Workflow { PullIsUnlocked(job, unit.stageID); }
    }
  }

  // ---------- jobs that have ended ----------

  ghost predicate Ended(db: Db, jobID: string) {
    jobID in db.jobs && TerminalJob(db.jobs[jobID].status)
  }

  lemma StepKeepsEnded(maxRetries: nat, w: World, step: Step, w': World, jobID: string)
    requires Ended(w.db, jobID) && Next(maxRetries, w, step, w')
    ensures Ended(w'.db, jobID)
  {
    if step.Cycle? {
      var mid := w.db.(units := Reclaimed(w.db.units, w.nodes, step.message, step.now));
      assert JobCycled(step.cfg, mid, jobID, w'.db.jobs[jobID], step.now);
    } else if step.Report? {
      ReportKeepsEnded(w.db, w'.db, maxRetries, step.unitID, step.status, step.exitCode, step.errorMessage, step.now, jobID);
    }
  }

  lemma ReportKeepsEnded(before: Db, after: Db, maxRetries: nat, unitID: string, status: UnitStatus, exitCode: int,
                         errorMessage: string, now: int, jobID: string)
    requires Ended(before, jobID) && ReportDone(before, after, maxRetries, unitID, status, exitCode, errorMessage, now)
    ensures Ended(after, jobID)
  {
    if unitID in before.units {
      var u := UnitWith(before.units[unitID], status, exitCode, errorMessage, now);
      if Propagated(before.(units := before.units[unitID := u]), after, u.jobID, u.stageID, now) && u.jobID in before.jobs {
        var mid := before.(units := before.units[unitID := u]);
        var stages := Outcome(mid.units, mid.jobs[u.jobID].stages, u.stageID).0;
        assert JobFollows(mid.jobs[u.jobID], after.jobs[u.jobID], stages, now);
      }
    }
  }

  lemma EndedStaysEnded(maxRetries: nat, worlds: seq<World>, steps: seq<Step>, i: nat, t: nat, jobID: string)
    requires IsRun(maxRetries, worlds, steps) && i <= t < |worlds| && Ended(worlds[i].db, jobID)
    ensures Ended(worlds[t].db, jobID)
  {
    var next := (w: World, step: Step, w': World) => Next(maxRetries, w, step, w');
    var inv := (w: World) => Ended(w.db, jobID);
    forall w, step, w' | inv(w) && next(w, step, w')
      ensures inv(w')
    {
      StepKeepsEnded(maxRetries, w, step, w', jobID);
    }
    Runs.Onward(worlds, steps, next, inv, i, t);
  }

  /** A job that a report ends is failed exactly when one of its stages is, and completed
      otherwise; all its stages have ended by then. */
  lemma EndsAsItsStages(maxRetries: nat, worlds: seq<World>, steps: seq<Step>, t: nat, jobID: string)
    requires IsRun(maxRetries, worlds, steps) && t < |steps| && steps[t].Report? && jobID in worlds[t].db.jobs
    requires !Ended(worlds[t].db, jobID) && Ended(worlds[t + 1].db, jobID)
    ensures
      var j := worlds[t + 1].db.jobs[jobID];
      && (forall s :: s in j.stages ==> s.status in {StageCompleted, StageFailed, StageSkipped})
      && j.status == if exists s :: s in j.stages && s.status == StageFailed then JobFailed else JobCompleted
  {
    assert Next(maxRetries, worlds[t], steps[t], worlds[t + 1]);
    var step := steps[t];
    ReportEnds(worlds[t].db, worlds[t + 1].db, maxRetries, step.unitID, step.status, step.exitCode, step.errorMessage, step.now, jobID);
  }

  lemma ReportEnds(before: Db, after: Db, maxRetries: nat, unitID: string, status: UnitStatus, exitCode: int,
                   errorMessage: string, now: int, jobID: string)
    requires ReportDone(before, after, maxRetries, unitID, status, exitCode, errorMessage, now)
    requires jobID in before.jobs && !Ended(before, jobID) && Ended(after, jobID)
    ensures
      var j := after.jobs[jobID];
      && (forall s :: s in j.stages ==> s.status in {StageCompleted, StageFailed, StageSkipped})
      && j.status == if exists s :: s in j.stages && s.status == StageFailed then JobFailed else JobCompleted
  {
    var u := UnitWith(before.units[unitID], status, exitCode, errorMessage, now);
    var mid := before.(units := before.units[unitID := u]);
    assert u.jobID == jobID;
    Outcomes.FollowsStages(before.jobs[jobID], after.jobs[jobID], Outcome(mid.units, before.jobs[jobID].stages, u.stageID).0, now);
    var stages := after.jobs[jobID].stages;
    forall s | s in stages
      ensures s.status in {StageCompleted, StageFailed, StageSkipped}
    {
      var k :| 0 <= k < |stages| && stages[k] == s;
      assert Outcomes.Ended(stages[k].status);
    }
  }

  /** Once a job has ended, no cycle and no pull ever assigns a unit of it again. */
  lemma NeverAssignedAgain(maxRetries: nat, worlds: seq<World>, steps: seq<Step>, i: nat, t: nat, u: string)
    requires IsRun(maxRetries, worlds, steps) && i <= t < |steps| && (steps[t].Cycle? || steps[t].Pull?)
    requires u in worlds[t].db.units && Ended(worlds[i].db, worlds[t].db.units[u].jobID)
    requires u in worlds[t + 1].db.units && worlds[t].db.units[u].status != Assigned
    ensures worlds[t + 1].db.units[u].status != Assigned
  {
    EndedStaysEnded(maxRetries, worlds, steps, i, t, worlds[t].db.units[u].jobID);
    if worlds[t + 1].db.units[u].status == Assigned {
      AssignedInOrder(maxRetries, worlds, steps, t, u);
      assert false;
    }
  }

  // ---------- retries ----------

  ghost predicate RetriesWithin(units: map<string, Unit>, max: nat) {
    forall u :: u in units ==> units[u].retryCount <= max
  }

  lemma StepKeepsRetries(maxRetries: nat, w: World, step: Step, w': World)
    requires RetriesWithin(w.db.units, maxRetries) && Next(maxRetries, w, step, w')
    ensures RetriesWithin(w'.db.units, maxRetries)
  {
    match step {
      case Submit(job, split) => NewUnitsUntried(job.stages, job.id, split);
      case SubmitRejected(job, split) =>
        forall k | 0 <= k < |job.stages| && forall s :: s in job.stages[..k] ==> split(s).Some?
          ensures RetriesWithin(UnitsOf(job.stages[..k], job.id, split), 0)
        {
          NewUnitsUntried(job.stages[..k], job.id, split);
        }
      case Report(unitID, status, exitCode, errorMessage, now) =>
        ReportKeepsRetries(w.db, w'.db, maxRetries, unitID, status, exitCode, errorMessage, now);
      case Cycle(cfg, message, now) => CycleKeepsRetries(cfg, w.nodes, w.db, w'.db, message, now);
      case _ =>
    }
  }

  lemma ReportKeepsRetries(before: Db, after: Db, maxRetries: nat, unitID: string, status: UnitStatus, exitCode: int,
                           errorMessage: string, now: int)
    requires RetriesWithin(before.units, maxRetries)
    requires ReportDone(before, after, maxRetries, unitID, status, exitCode, errorMessage, now)
    ensures RetriesWithin(after.units, maxRetries)
  {
  }

  lemma CycleKeepsRetries(cfg: Settings, nodes: map<string, Node>, before: Db, after: Db, message: string, now: int)
    requires RetriesWithin(before.units, cfg.maxRetries) && CycleDone(cfg, nodes, before, after, message, now)
    ensures RetriesWithin(after.units, cfg.maxRetries)
  {
    var mid := before.(units := Reclaimed(before.units, nodes, message, now));
    forall u | u in mid.units
      ensures after.units[u].retryCount <= cfg.maxRetries
    {
      Engine.CycledSame(cfg, nodes, mid, mid.units[u], after.units[u], now);
    }
  }

  lemma NewUnitsUntried(stages: seq<Stage>, jobID: string, split: Stage -> Option<nat>)
    requires forall s :: s in stages ==> split(s).Some?
    ensures RetriesWithin(UnitsOf(stages, jobID, split), 0)
  {
    forall u | u in UnitsOf(stages, jobID, split)
      ensures UnitsOf(stages, jobID, split)[u].retryCount == 0
    {
      InUnitsOf(stages, jobID, split, u);
    }
  }

  /** No unit is ever retried more often than configured. */
  lemma RetryBound(maxRetries: nat, worlds: seq<World>, steps: seq<Step>, t: nat)
    requires IsRun(maxRetries, worlds, steps) && t < |worlds|
    ensures RetriesWithin(worlds[t].db.units, maxRetries)
  {
    var next := (w: World, step: Step, w': World) => Next(maxRetries, w, step, w');
    var inv := (w: World) => RetriesWithin(w.db.units, maxRetries);
    forall w, step, w' | inv(w) && next(w, step, w')
      ensures inv(w')
    {
      StepKeepsRetries(maxRetries, w, step, w');
    }
    Runs.Invariant(worlds, steps, next, inv, t);
  }

  // ---------- where active units are ----------

  predicate Placed(nodes: map<string, Node>, u: Unit) {
    u.assignedNode in nodes && nodes[u.assignedNode].status != Offline
  }

  /** After a cycle every assigned or running unit sits on a registered node that is not
      offline. */
  lemma CyclePlaces(cfg: Settings, nodes: map<string, Node>, before: Db, after: Db, message: string, now: int, u: string)
    requires CycleDone(cfg, nodes, before, after, message, now) && u in after.units && Active(after.units[u].status)
    ensures Placed(nodes, after.units[u])
  {
    var mid := before.(units := Reclaimed(before.units, nodes, message, now));
    assert UnitCycled(cfg, nodes, mid, mid.units[u], after.units[u], now);
    if after.units[u] != mid.units[u] {
      var j := mid.jobs[mid.units[u].jobID];
      var id :| Best(cfg, nodes, InMemory(mid.units[u]), j, id) && after.units[u] == GivenTo(mid.units[u], id);
      NodeFilter.PipelineIsUp(RequestFor(cfg, nodes, InMemory(mid.units[u]), j), nodes[id]);
    }
  }
}
