/** What one unit's new status means for its stage and its job (propagateUnitStatus in
    scheduler/internal/server/server.go). */
module Propagation {
  import opened StoreView
  import opened Cascade
  import opened Graph
  import opened Model

  predicate FailedUnit(s: UnitStatus) {
    s == UnitStatus.Failed || s == Cancelled || s == Timeout
  }

  ghost predicate SomeUnit(units: map<string, Unit>, stageID: string, test: UnitStatus -> bool) {
    exists id :: id in units && units[id].stageID == stageID && test(units[id].status)
  }

  /** The status of a stage, judged by its units: Running while one of them is waiting or
      active, then Failed if one of them failed, and Completed otherwise. */
  ghost function StageVerdict(units: map<string, Unit>, stageID: string): StageStatus {
    if SomeUnit(units, stageID, Cancellable) then StageRunning
    else if SomeUnit(units, stageID, FailedUnit) then StageFailed
    else StageCompleted
  }

  /** "Completed" includes units with a status the switch does not mention. */
  predicate CountsAsDone(s: UnitStatus) {
    s == UnitStatus.Completed || s == Retrying || s == Unspecified
  }

  ghost predicate AllUnits(units: map<string, Unit>, stageID: string, test: UnitStatus -> bool) {
    forall id :: id in units && units[id].stageID == stageID ==> test(units[id].status)
  }

  predicate IsCompleted(s: UnitStatus) {
    s == UnitStatus.Completed
  }

  /** A stage is judged Completed when its units count as done, also when one of them is
      Retrying or has no status: exactly then the verdict differs from "all completed". */
  lemma CompletedExactly(units: map<string, Unit>, stageID: string)
    ensures StageVerdict(units, stageID) == StageCompleted <==> AllUnits(units, stageID, CountsAsDone)
    ensures (StageVerdict(units, stageID) == StageCompleted <==> AllUnits(units, stageID, IsCompleted))
      <==> !(AllUnits(units, stageID, CountsAsDone) && SomeUnit(units, stageID, s => s == Retrying || s == Unspecified))
  {
    forall id | id in units && units[id].stageID == stageID
      ensures Cancellable(units[id].status) || FailedUnit(units[id].status) || CountsAsDone(units[id].status)
    {
    }
  }

  /** One unit that is to be retried completes its stage. */
  lemma RetryingCompletes(u: Unit)
    requires u.status == Retrying
    ensures StageVerdict(map[u.id := u], u.stageID) == StageCompleted && !AllUnits(map[u.id := u], u.stageID, IsCompleted)
  {
    CompletedExactly(map[u.id := u], u.stageID);
    assert map[u.id := u][u.id] == u;
  }

  function JobVerdict(stages: seq<Stage>): Option<JobStatus> {
    if exists i :: 0 <= i < |stages| && !TerminalStage(stages[i].status) then None
    else if exists i :: 0 <= i < |stages| && stages[i].status == StageFailed then Some(JobFailed)
    else Some(JobCompleted)
  }

  /** The stages after the verdict on `stageID`, and the stages whose units are cancelled. */
  ghost function Outcome(units: map<string, Unit>, stages: seq<Stage>, stageID: string): (seq<Stage>, set<string>) {
    if !(exists i :: 0 <= i < |stages| && stages[i].id == stageID) then (stages, {})
    else
      var verdict := StageVerdict(units, stageID);
      var judged := SetStage(stages, stageID, verdict);
      if verdict != StageFailed then (judged, {})
      else (Marked(judged, NeedingIds(judged, stageID)), MarkedIds(judged, NeedingIds(judged, stageID)))
  }

  /** The job after its stages changed: ended as soon as all of them have. */
  ghost predicate JobFollows(before: Job, after: Job, stages: seq<Stage>, now: int) {
    after == match JobVerdict(stages)
      case None => before.(stages := stages, updatedAt := after.updatedAt)
      case Some(status) => before.(stages := stages, status := status, completedAt := now, updatedAt := after.updatedAt)
  }

  /** Halfway: the stages are settled, the job is not. */
  ghost predicate Settled(before: Db, mid: Db, jobID: string, stages: seq<Stage>, cancelled: set<string>, now: int)
    requires jobID in before.jobs
  {
    && jobID in mid.jobs && Restaged(before.jobs[jobID], mid.jobs[jobID], stages)
    && mid == before.(jobs := before.jobs[jobID := mid.jobs[jobID]], units := CancelStages(before.units, cancelled, now))
  }

  // ---------- the steps of a propagation ----------

  ghost predicate OnlyStages(before: Db, mid: Db, jobID: string, stages: seq<Stage>)
    requires jobID in before.jobs
  {
    && jobID in mid.jobs && Restaged(before.jobs[jobID], mid.jobs[jobID], stages)
    && mid == before.(jobs := before.jobs[jobID := mid.jobs[jobID]])
  }

  lemma Judged(before: Db, mid: Db, jobID: string, k: nat, verdict: StageStatus, now: int)
    requires Keyed(before) && StagesApart(before.jobs) && jobID in before.jobs && k < |before.jobs[jobID].stages|
    requires mid == if verdict == before.jobs[jobID].stages[k].status then before
                    else before.(jobs := StagedAll(before.jobs, before.jobs[jobID].stages[k].id, verdict, now))
    ensures OnlyStages(before, mid, jobID, SetStage(before.jobs[jobID].stages, before.jobs[jobID].stages[k].id, verdict))
    ensures SetStage(before.jobs[jobID].stages, before.jobs[jobID].stages[k].id, verdict)
         == before.jobs[jobID].stages[k := before.jobs[jobID].stages[k].(status := verdict)]
    ensures Keyed(mid) && StagesApart(mid.jobs)
  {
    SetAt(before.jobs[jobID].stages, k, verdict);
    if verdict == before.jobs[jobID].stages[k].status {
      assert mid.jobs == before.jobs[jobID := mid.jobs[jobID]];
    } else {
      JudgedAnew(before, mid, jobID, k, verdict, now);
    }
  }

  lemma JudgedAnew(before: Db, mid: Db, jobID: string, k: nat, verdict: StageStatus, now: int)
    requires Keyed(before) && StagesApart(before.jobs) && jobID in before.jobs && k < |before.jobs[jobID].stages|
    requires mid == before.(jobs := StagedAll(before.jobs, before.jobs[jobID].stages[k].id, verdict, now))
    ensures OnlyStages(before, mid, jobID, before.jobs[jobID].stages[k := before.jobs[jobID].stages[k].(status := verdict)])
    ensures Keyed(mid) && StagesApart(mid.jobs)
  {
    OnlyItsJob(before.jobs, jobID, k, verdict, now);
    StillApart(before.jobs, jobID, mid.jobs[jobID]);
  }

  lemma SettledPlainly(before: Db, mid: Db, jobID: string, k: nat, now: int)
    requires jobID in before.jobs && k < |before.jobs[jobID].stages|
    requires
      var stages, stageID := before.jobs[jobID].stages, before.jobs[jobID].stages[k].id;
      && StageVerdict(before.units, stageID) != StageFailed
      && OnlyStages(before, mid, jobID, SetStage(stages, stageID, StageVerdict(before.units, stageID)))
    ensures
      var outcome := Outcome(before.units, before.jobs[jobID].stages, before.jobs[jobID].stages[k].id);
      Settled(before, mid, jobID, outcome.0, outcome.1, now)
  {
    CancelNothing(before.units, now);
  }

  lemma SettledByCascade(before: Db, mid: Db, after: Db, jobID: string, k: nat, now: int)
    requires jobID in before.jobs && k < |before.jobs[jobID].stages|
    requires
      var stages, stageID := before.jobs[jobID].stages, before.jobs[jobID].stages[k].id;
      && StageVerdict(before.units, stageID) == StageFailed
      && OnlyStages(before, mid, jobID, SetStage(stages, stageID, StageFailed)) && Cascaded(mid, after, jobID, stageID, now)
    ensures
      var outcome := Outcome(before.units, before.jobs[jobID].stages, before.jobs[jobID].stages[k].id);
      Settled(before, after, jobID, outcome.0, outcome.1, now)
  {
  }

  lemma SettledWithoutStage(before: Db, jobID: string, stageID: string, now: int)
    requires jobID in before.jobs && forall i :: 0 <= i < |before.jobs[jobID].stages| ==> before.jobs[jobID].stages[i].id != stageID
    ensures
      var outcome := Outcome(before.units, before.jobs[jobID].stages, stageID);
      Settled(before, before, jobID, outcome.0, outcome.1, now)
  {
    CancelNothing(before.units, now);
  }

  lemma SettledThenEnded(before: Db, mid: Db, after: Db, jobID: string, stageID: string, now: int)
    requires jobID in before.jobs
    requires
      var outcome := Outcome(before.units, before.jobs[jobID].stages, stageID);
      Settled(before, mid, jobID, outcome.0, outcome.1, now)
    requires jobID in after.jobs && after == mid.(jobs := mid.jobs[jobID := after.jobs[jobID]])
    requires JobFollows(mid.jobs[jobID], after.jobs[jobID], mid.jobs[jobID].stages, now)
    ensures Propagated(before, after, jobID, stageID, now)
  {
    assert after.jobs == before.jobs[jobID := after.jobs[jobID]];
  }

  /** What a report about a unit of that job and stage leads to. */
  ghost predicate Propagated(before: Db, after: Db, jobID: string, stageID: string, now: int) {
    if jobID !in before.jobs then after == before
    else
      var outcome := Outcome(before.units, before.jobs[jobID].stages, stageID);
      && jobID in after.jobs && JobFollows(before.jobs[jobID], after.jobs[jobID], outcome.0, now)
      && after == before.(jobs := before.jobs[jobID := after.jobs[jobID]],
                          units := CancelStages(before.units, outcome.1, now))
  }

  /** A failed unit put back in the queue. */
  function Retried(u: Unit): Unit {
    u.(retryCount := u.retryCount + 1, status := Pending, assignedNode := "", errorMessage := "")
  }

  /** What a status report does. */
  ghost predicate ReportDone(before: Db, after: Db, maxRetries: nat, unitID: string, status: UnitStatus, exitCode: int,
                             errorMessage: string, now: int)
  {
    if unitID == "" || unitID !in before.units then after == before
    else
      var u := UnitWith(before.units[unitID], status, exitCode, errorMessage, now);
      if status == before.units[unitID].status then
        after == before.(units := before.units[unitID := u])
      else if status == UnitStatus.Failed && u.retryCount < maxRetries then
        after == before.(units := before.units[unitID := Retried(u)])
      else
        Propagated(before.(units := before.units[unitID := u]), after, u.jobID, u.stageID, now)
  }
}
