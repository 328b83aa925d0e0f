/** What reports, cancellations, departures of nodes and submissions leave behind, said of
    units, stages and jobs alone (scheduler/internal/server/server.go). */
module Outcomes {
  import opened Cascade
  import opened Graph
  import opened Handlers
  import opened Model
  import opened Propagation
  import opened StoreView

  // ---------- stages and jobs ----------

  ghost predicate SomeUnitIs(units: map<string, Unit>, stageID: string, statuses: set<UnitStatus>) {
    exists u :: u in units && units[u].stageID == stageID && units[u].status in statuses
  }

  /** The status that the units of a stage call for. */
  ghost predicate IsJudgement(units: map<string, Unit>, stageID: string, status: StageStatus) {
    if SomeUnitIs(units, stageID, {Pending, Assigned, Running}) then status == StageRunning
    else if SomeUnitIs(units, stageID, {UnitStatus.Failed, Cancelled, Timeout}) then status == StageFailed
    else status == StageCompleted
  }

  lemma VerdictIsJudgement(units: map<string, Unit>, stageID: string)
    ensures IsJudgement(units, stageID, StageVerdict(units, stageID))
  {
    forall u | u in units
      ensures Cancellable(units[u].status) <==> units[u].status in {Pending, Assigned, Running}
      ensures FailedUnit(units[u].status) <==> units[u].status in {UnitStatus.Failed, Cancelled, Timeout}
    {
    }
  }

  ghost predicate Ended(s: StageStatus) {
    s == StageCompleted || s == StageFailed || s == StageSkipped
  }

  /** The job's status follows from its stages as soon as all of them have ended, and is what
      it was before that. */
  ghost predicate EndsWithStages(before: Job, after: Job) {
    if exists k :: 0 <= k < |after.stages| && !Ended(after.stages[k].status) then after.status == before.status
    else if exists k :: 0 <= k < |after.stages| && after.stages[k].status == StageFailed then after.status == JobFailed
    else after.status == JobCompleted
  }

  lemma FollowsStages(before: Job, after: Job, stages: seq<Stage>, now: int)
    requires JobFollows(before, after, stages, now)
    ensures after.stages == stages && EndsWithStages(before, after)
  {
  }

  /** After a propagation the reported stage has the status its units call for, and the job
      ends with its stages. */
  lemma PropagatedExactly(before: Db, after: Db, jobID: string, stageID: string, now: int, k: nat)
    requires Propagated(before, after, jobID, stageID, now) && jobID in before.jobs
    requires k < |before.jobs[jobID].stages| && before.jobs[jobID].stages[k].id == stageID && UniqueIds(before.jobs[jobID].stages)
    ensures jobID in after.jobs && |after.jobs[jobID].stages| == |before.jobs[jobID].stages|
    ensures IsJudgement(before.units, stageID, after.jobs[jobID].stages[k].status)
    ensures EndsWithStages(before.jobs[jobID], after.jobs[jobID])
    ensures after.jobs[jobID].stages[k].status != StageFailed ==>
      after.units == before.units && after.jobs[jobID].stages == before.jobs[jobID].stages[k := after.jobs[jobID].stages[k]]
  {
    var stages := before.jobs[jobID].stages;
    var outcome := Outcome(before.units, stages, stageID);
    FollowsStages(before.jobs[jobID], after.jobs[jobID], outcome.0, now);
    VerdictIsJudgement(before.units, stageID);
    SetAt(stages, k, StageVerdict(before.units, stageID));
    CancelNothing(before.units, now);
  }

  // ---------- the cascade ----------

  /** The stage needs the failed one, directly or through others, and has not ended. */
  ghost predicate Doomed(stages: seq<Stage>, failed: string, s: Stage) {
    Needs(stages, failed, s.id) && s.status != StageCompleted && s.status != StageFailed && s.status != StageSkipped
  }

  ghost predicate InDoomed(stages: seq<Stage>, failed: string, stageID: string) {
    exists k :: 0 <= k < |stages| && stages[k].id == stageID && Doomed(stages, failed, stages[k])
  }

  /** A unit is cancelled at `now` if it waits or is active. */
  ghost predicate CancelledAt(a: Unit, b: Unit, message: string, now: int) {
    if a.status == Pending || a.status == Assigned || a.status == Running
    then b == a.(status := Cancelled, exitCode := 0, errorMessage := message, completedAt := now)
    else b == a
  }

  /** The cascade skips the stages that need the failed one and have not ended, cancels
      their units that wait or are active, and does nothing else. */
  lemma CascadedExactly(before: Db, after: Db, jobID: string, failed: string, now: int)
    requires jobID in before.jobs && Cascaded(before, after, jobID, failed, now)
    ensures jobID in after.jobs && |after.jobs[jobID].stages| == |before.jobs[jobID].stages|
    ensures forall k :: 0 <= k < |before.jobs[jobID].stages| ==>
      var s := before.jobs[jobID].stages[k];
      after.jobs[jobID].stages[k] ==
        if Needs(before.jobs[jobID].stages, failed, s.id) && !Ended(s.status) then s.(status := StageSkipped) else s
    ensures after.units.Keys == before.units.Keys && forall u :: u in before.units ==>
      if InDoomed(before.jobs[jobID].stages, failed, before.units[u].stageID)
      then CancelledAt(before.units[u], after.units[u], UPSTREAM_FAILED, now)
      else after.units[u] == before.units[u]
    ensures after == before.(jobs := before.jobs[jobID := after.jobs[jobID]], units := after.units)
  {
    var stages := before.jobs[jobID].stages;
    forall k | 0 <= k < |stages|
      ensures stages[k].id in NeedingIds(stages, failed) <==> Needs(stages, failed, stages[k].id)
    {
      NeedingIsStage(stages, failed, stages[k].id);
    }
    forall id
      ensures id in MarkedIds(stages, NeedingIds(stages, failed)) <==> InDoomed(stages, failed, id)
    {
      MarkedIsDoomed(stages, failed, id);
    }
  }

  lemma MarkedIsDoomed(stages: seq<Stage>, failed: string, id: string)
    ensures id in MarkedIds(stages, NeedingIds(stages, failed)) <==> InDoomed(stages, failed, id)
  {
    NeedingIsStage(stages, failed, id);
    if id in MarkedIds(stages, NeedingIds(stages, failed)) {
      var s :| s in stages && s.id in NeedingIds(stages, failed) && !TerminalStage(s.status) && s.id == id;
      var k :| 0 <= k < |stages| && stages[k] == s;
    }
    if InDoomed(stages, failed, id) {
      var k :| 0 <= k < |stages| && stages[k].id == id && Doomed(stages, failed, stages[k]);
      assert stages[k] in stages;
    }
  }

  // ---------- reports ----------

  /** A report on a unit that does not exist does nothing. */
  lemma ReportOnNone(before: Db, after: Db, maxRetries: nat, unitID: string, status: UnitStatus, exitCode: int,
                     errorMessage: string, now: int)
    requires ReportDone(before, after, maxRetries, unitID, status, exitCode, errorMessage, now)
    requires unitID == "" || unitID !in before.units
    ensures after == before
  {
  }

  /** The reported unit: failing with retries left, it waits again, counted once more and on
      no node; otherwise it has what was reported, and the same count. */
  lemma ReportedUnit(before: Db, after: Db, maxRetries: nat, unitID: string, status: UnitStatus, exitCode: int,
                     errorMessage: string, now: int)
    requires ReportDone(before, after, maxRetries, unitID, status, exitCode, errorMessage, now)
    requires unitID != "" && unitID in before.units
    ensures unitID in after.units && after.units.Keys == before.units.Keys
    ensures
      var a, b := before.units[unitID], after.units[unitID];
      if status == UnitStatus.Failed && a.status != UnitStatus.Failed && a.retryCount < maxRetries then
        && b.retryCount == a.retryCount + 1 && b.status == Pending && b.assignedNode == "" && b.errorMessage == ""
        && after.jobs == before.jobs
      else
        && b.retryCount == a.retryCount && b.status == status && b.assignedNode == a.assignedNode
        && b.exitCode == exitCode && b.errorMessage == errorMessage
        && b.startedAt == (if status == Running && a.startedAt == 0 then now else a.startedAt)
        && b.completedAt == (if status in {UnitStatus.Completed, UnitStatus.Failed, Cancelled} then now else a.completedAt)
        && (status == a.status ==> after.jobs == before.jobs)
  {
    var u := UnitWith(before.units[unitID], status, exitCode, errorMessage, now);
    var mid := before.(units := before.units[unitID := u]);
    if u.jobID in before.jobs && Propagated(mid, after, u.jobID, u.stageID, now) {
      NotItsOwn(mid.units, before.jobs[u.jobID].stages, u.stageID);
    }
  }

  /** A propagation never reaches the units of the stage it starts from. */
  lemma NotItsOwn(units: map<string, Unit>, stages: seq<Stage>, stageID: string)
    ensures stageID !in Outcome(units, stages, stageID).1
  {
  }

  /** Retries are counted once each, by reports on failures alone. */
  lemma ReportedOthers(before: Db, after: Db, maxRetries: nat, unitID: string, status: UnitStatus, exitCode: int,
                       errorMessage: string, now: int, v: string)
    requires ReportDone(before, after, maxRetries, unitID, status, exitCode, errorMessage, now)
    requires v in before.units && v != unitID
    ensures v in after.units && after.units[v].retryCount == before.units[v].retryCount
    ensures after.units[v] == before.units[v] || CancelledAt(before.units[v], after.units[v], UPSTREAM_FAILED, now)
  {
  }

  // ---------- cancellation and departure ----------

  /** A cancelled job has no unit that waits or is active, the stages that were neither
      completed nor failed are skipped, and nothing else changes. */
  lemma CancelExactly(before: Db, after: Db, jobID: string, now: int)
    requires CancelDone(before, after, jobID, now) && jobID in before.jobs
    ensures after.units.Keys == before.units.Keys && forall u :: u in before.units ==>
      if before.units[u].jobID == jobID then CancelledAt(before.units[u], after.units[u], JOB_CANCELLED, now)
      else after.units[u] == before.units[u]
    ensures after.jobs.Keys == before.jobs.Keys && forall j :: j in before.jobs && j != jobID ==> after.jobs[j] == before.jobs[j]
    ensures after.jobs[jobID].status == JobCancelled && |after.jobs[jobID].stages| == |before.jobs[jobID].stages|
    ensures forall k :: 0 <= k < |before.jobs[jobID].stages| ==>
      var s := before.jobs[jobID].stages[k];
      after.jobs[jobID].stages[k] ==
        if s.status == StageCompleted || s.status == StageFailed then s else s.(status := StageSkipped)
  {
  }

  /** The units that the node holds fail, and no others change. */
  lemma UnregisterExactly(before: Db, after: Db, nodeID: string, now: int)
    requires UnregisterDone(before, after, nodeID, now)
    ensures nodeID !in after.nodes && after.units.Keys == before.units.Keys
    ensures forall u :: u in before.units ==>
      var a, b := before.units[u], after.units[u];
      if a.assignedNode == nodeID && (a.status == Assigned || a.status == Running) then
        b == a.(status := UnitStatus.Failed, exitCode := 0, errorMessage := NODE_UNREGISTERED, completedAt := now)
      else b == a
  {
  }

  // ---------- submission ----------

  /** A submitted job is stored as it is, with as many new units for each stage as it splits
      into, all waiting, on no node and never tried. */
  lemma SubmitExactly(before: Db, after: Db, job: Job, split: Stage -> Option<nat>, id: string)
    requires SubmitDone(before, after, job, split)
    ensures job.id in after.jobs && after.jobs[job.id] == job
    ensures id in after.units <==> id in before.units || exists s, i: nat ::
      s in job.stages && split(s).Some? && i < split(s).value && id == UnitID(s.id, i)
    ensures id in after.units && (id !in before.units || after.units[id] != before.units[id]) ==>
      && after.units[id].id == id && after.units[id].jobID == job.id && after.units[id].status == Pending
      && after.units[id].assignedNode == "" && after.units[id].retryCount == 0
      && exists s :: s in job.stages && s.id == after.units[id].stageID
  {
    AllUnitsOf(job.stages, job.id, split, id);
    InUnitsOf(job.stages, job.id, split, id);
  }

  lemma {:induction false} AllUnitsOf(stages: seq<Stage>, jobID: string, split: Stage -> Option<nat>, id: string)
    requires forall s :: s in stages ==> split(s).Some?
    ensures id in UnitsOf(stages, jobID, split) <==> exists s, i: nat :: s in stages && i < split(s).value && id == UnitID(s.id, i)
    decreases |stages|
  {
    if stages != [] {
      var front, last := stages[..|stages| - 1], stages[|stages| - 1];
      AllUnitsOf(front, jobID, split, id);
      InUnitsOfStage(last.id, jobID, split(last).value, id);
      assert stages == front + [last];
    }
  }
}
