/** The scheduler's handlers for reports, cancellations and nodes that leave
    (scheduler/internal/server/server.go).  Each call is one atomic step. */
module Server {
  import opened StoreView
  import opened Cascade
  import opened Graph
  import opened Handlers
  import opened Model
  import opened Outcomes
  import opened Propagation
  import Topo

  class Server {
    const store: Buckets
    const maxRetries: nat

    constructor (store: Buckets, maxRetries: nat)
      ensures this.store == store && this.maxRetries == maxRetries
    {
      this.store, this.maxRetries := store, maxRetries;
    }

    // ---------- the failure cascade ----------

    /** Stage identifiers, each with the identifiers of the stages that depend on it. */
    method BuildDownstream(stages: seq<Stage>) returns (downstream: map<string, seq<string>>)
      ensures forall a, b :: b in Topo.DependentsIn(downstream, a) <==> Feeds(stages, a, b)
    {
      downstream := map[];
      for i := 0 to |stages|
        invariant forall a, b :: b in Topo.DependentsIn(downstream, a) <==> FeedsUpTo(stages, i, 0, a, b)
      {
        for j := 0 to |stages[i].dependsOn|
          invariant forall a, b :: b in Topo.DependentsIn(downstream, a) <==> FeedsUpTo(stages, i, j, a, b)
        {
          var dep := FindStageByName(stages, stages[i].dependsOn[j]);
          ghost var was := downstream;
          if dep >= 0 {
            var a := stages[dep].id;
            downstream := downstream[a := Topo.DependentsIn(downstream, a) + [stages[i].id]];
          }
          FeedsMore(stages, i, j, was, downstream);
        }
        FeedsRow(stages, i);
      }
      FeedsAll(stages);
    }

    /** Skips every unfinished stage that needs the failed one and cancels its units; ends
        on any dependencies, also on cyclic ones. */
    method CancelDownstreamStages(job: Job, failed: string, now: int)
      requires Keyed(store.db) && StagesApart(store.db.jobs)
      requires job.id in store.db.jobs && store.db.jobs[job.id].stages == job.stages
      modifies store
      ensures Cascaded(old(store.db), store.db, job.id, failed, now)
    {
      ghost var before, rel, known := store.db, Downstream(job.stages), {failed} + Ids(job.stages);
      var downstream := BuildDownstream(job.stages);
      var stages := job.stages;
      var queue, visited := [failed], {failed};
      SearchStarts(rel, failed);
      MarkingStarts(before, job.id, now);
      assert visited - {failed} == {};
      while queue != []
        invariant Searching(rel, failed, queue, visited, {}) && visited <= known
        invariant MarkingOf(before, job.id, now)(store.db, stages, visited - {failed})
        decreases known - visited, |queue|
      {
        var current := queue[0];
        SearchPops(rel, failed, queue, visited);
        var next := Topo.DependentsIn(downstream, current);
        DownstreamAre(job.stages, current, next, known);
        queue, visited, stages :=
          VisitDependents(before, rel, known, job.id, failed, current, next, queue[1..], visited, stages, now);
      }
      SearchEnds(rel, failed, visited);
      ReachedIsNeeding(job.stages, failed, visited);
    }

    /** The inner loop: what depends on `current`. */
    method VisitDependents(ghost before: Db, ghost rel: (string, string) -> bool, ghost known: set<string>, jobID: string,
                           failed: string, ghost current: string, next: seq<string>, waiting: seq<string>,
                           seen: set<string>, copy: seq<Stage>, now: int)
      returns (queue: seq<string>, visited: set<string>, stages: seq<Stage>)
      requires Searching(rel, failed, waiting, seen, {current}) && current in seen && seen <= known
      requires MarkingOf(before, jobID, now)(store.db, copy, seen - {failed})
      requires (forall b :: b in next <==> rel(current, b)) && forall b :: b in next ==> b in known
      modifies store
      ensures Searching(rel, failed, queue, visited, {}) && visited <= known
      ensures MarkingOf(before, jobID, now)(store.db, stages, visited - {failed})
      ensures seen <= visited && (visited == seen ==> queue == waiting)
    {
      queue, visited, stages := waiting, seen, copy;
      for k := 0 to |next|
        invariant Searching(rel, failed, queue, visited, {current}) && visited <= known
        invariant seen <= visited && (visited == seen ==> queue == waiting)
        invariant Elements(next[..k]) <= visited
        invariant MarkingOf(before, jobID, now)(store.db, stages, visited - {failed})
      {
        var nextID := next[k];
        NextElement(next, k);
        assert nextID in next;
        if nextID in visited {
          continue;
        }
        SearchVisits(rel, failed, queue, visited, current, nextID);
        stages := Mark(before, jobID, stages, visited - {failed}, nextID, now);
        OneMore(visited, failed, nextID);
        visited := visited + {nextID};
        queue := queue + [nextID];
      }
      assert Elements(next[..|next|]) == Elements(next);
      SearchFinishes(rel, failed, queue, visited, current);
    }

    /** Finds the stage and skips it, unless it has ended. */
    method Mark(ghost before: Db, jobID: string, stages: seq<Stage>, ghost ids: set<string>, id: string, now: int)
      returns (after: seq<Stage>)
      requires MarkingOf(before, jobID, now)(store.db, stages, ids) && id !in ids
      modifies store
      ensures MarkingOf(before, jobID, now)(store.db, after, ids + {id})
    {
      var k := FindStageByID(stages, id);
      if k < 0 {
        MarkingNothing(before, store.db, jobID, stages, ids, id, now);
        return stages;
      }
      after := SkipStage(store, before, jobID, stages, ids, k, now);
    }

    // ---------- propagation ----------

    method JudgeStage(stageID: string) returns (verdict: StageStatus)
      requires Keyed(store.db)
      ensures verdict == StageVerdict(store.db.units, stageID)
      ensures IsJudgement(store.db.units, stageID, verdict)
    {
      var stageUnits := ListUnits(store.db.units, OfStage(stageID));
      var allTerminal, hasFailed, hasRunning := true, false, false;
      for i := 0 to |stageUnits|
        invariant !allTerminal <==> exists k :: 0 <= k < i && Cancellable(stageUnits[k].status)
        invariant hasFailed <==> exists k :: 0 <= k < i && FailedUnit(stageUnits[k].status)
        invariant hasRunning ==> !allTerminal
      {
        match stageUnits[i].status {
          case Failed | Cancelled | Timeout =>
            hasFailed := true;
          case Running | Assigned | Pending =>
            allTerminal := false;
            if stageUnits[i].status == Running {
              hasRunning := true;
            }
          case _ =>
        }
      }
      VerdictOfList(store.db.units, stageID, stageUnits, allTerminal, hasFailed);
      VerdictIsJudgement(store.db.units, stageID);
      if hasRunning {
        verdict := StageRunning;
      } else if allTerminal && hasFailed {
        verdict := StageFailed;
      } else if allTerminal && !hasFailed {
        verdict := StageCompleted;
      } else {
        verdict := StageRunning;
      }
    }

    /** Gives the stage its status and, if that is Failed, runs the cascade. */
    method SettleStage(job: Job, k: nat, now: int)
      requires Keyed(store.db) && StagesApart(store.db.jobs)
      requires job.id in store.db.jobs && store.db.jobs[job.id] == job && k < |job.stages|
      modifies store
      ensures
        var outcome := Outcome(old(store.db).units, job.stages, job.stages[k].id);
        Settled(old(store.db), store.db, job.id, outcome.0, outcome.1, now)
    {
      var verdict := JudgeStage(job.stages[k].id);
      ghost var before := store.db;
      if verdict != job.stages[k].status {
        store.UpdateStageStatus(job.stages[k].id, verdict, now);
      }
      ghost var mid := store.db;
      Judged(before, mid, job.id, k, verdict, now);
      if verdict == StageFailed {
        CancelDownstreamStages(job.(stages := job.stages[k := job.stages[k].(status := verdict)]), job.stages[k].id, now);
        SettledByCascade(before, mid, store.db, job.id, k, now);
      } else {
        SettledPlainly(before, mid, job.id, k, now);
      }
    }

    method EndJob(job: Job, now: int)
      requires job.id in store.db.jobs && store.db.jobs[job.id] == job
      modifies store
      ensures job.id in store.db.jobs && store.db == old(store.db).(jobs := old(store.db).jobs[job.id := store.db.jobs[job.id]])
      ensures JobFollows(job, store.db.jobs[job.id], job.stages, now)
      ensures (forall s :: s in job.stages ==> s.status in {StageCompleted, StageFailed, StageSkipped}) ==>
        store.db.jobs[job.id].status == if exists s :: s in job.stages && s.status == StageFailed then JobFailed else JobCompleted
      ensures (exists s :: s in job.stages && s.status !in {StageCompleted, StageFailed, StageSkipped}) ==>
        store.db.jobs[job.id].status == job.status
    {
      var allTerminal, anyFailed := true, false;
      for i := 0 to |job.stages|
        invariant allTerminal <==> forall k :: 0 <= k < i ==> TerminalStage(job.stages[k].status)
        invariant anyFailed <==> exists k :: 0 <= k < i && job.stages[k].status == StageFailed
      {
        if job.stages[i].status != StageCompleted && job.stages[i].status != StageFailed && job.stages[i].status != StageSkipped {
          allTerminal := false;
        }
        if job.stages[i].status == StageFailed {
          anyFailed := true;
        }
      }
      if allTerminal {
        store.UpdateJobStatus(job.id, if anyFailed then JobFailed else JobCompleted, now);
      }
    }

    method PropagateUnitStatus(unit: Unit, now: int)
      requires Keyed(store.db) && StagesApart(store.db.jobs)
      modifies store
      ensures Propagated(old(store.db), store.db, unit.jobID, unit.stageID, now)
      ensures unit.jobID in old(store.db).jobs ==>
        && unit.jobID in store.db.jobs
        && var j := store.db.jobs[unit.jobID];
        && ((forall s :: s in j.stages ==> s.status in {StageCompleted, StageFailed, StageSkipped}) ==>
              j.status == if exists s :: s in j.stages && s.status == StageFailed then JobFailed else JobCompleted)
        && ((exists s :: s in j.stages && s.status !in {StageCompleted, StageFailed, StageSkipped}) ==>
              j.status == old(store.db).jobs[unit.jobID].status)
    {
      if unit.jobID !in store.db.jobs {
        return;
      }
      var job := store.db.jobs[unit.jobID];
      ghost var before := store.db;
      var k := FindStageByID(job.stages, unit.stageID);
      if k >= 0 {
        SettleStage(job, k, now);
      } else {
        SettledWithoutStage(before, unit.jobID, unit.stageID, now);
      }
      ghost var mid := store.db;
      EndJob(store.db.jobs[unit.jobID], now);
      SettledThenEnded(before, mid, store.db, unit.jobID, unit.stageID, now);
    }

    // ---------- the handlers ----------

    /** One report on the stream: stores it, then retries the unit or propagates. */
    method ReportUnitStatus(unitID: string, status: UnitStatus, exitCode: int, errorMessage: string, now: int)
      requires Keyed(store.db) && StagesApart(store.db.jobs)
      modifies store
      ensures ReportDone(old(store.db), store.db, maxRetries, unitID, status, exitCode, errorMessage, now)
    {
      if unitID == "" || unitID !in store.db.units {
        return;
      }
      var unit := store.db.units[unitID];
      var oldStatus := unit.status;
      unit := unit.(status := status, exitCode := exitCode, errorMessage := errorMessage);
      if status == Running && unit.startedAt == 0 {
        unit := unit.(startedAt := now);
      }
      if status == UnitStatus.Completed || status == UnitStatus.Failed || status == Cancelled {
        unit := unit.(completedAt := now);
      }
      assert unit == UnitWith(store.db.units[unitID], status, exitCode, errorMessage, now);
      store.SaveUnit(unit);
      if oldStatus != status {
        if status == UnitStatus.Failed && unit.retryCount < maxRetries {
          unit := unit.(retryCount := unit.retryCount + 1);
          unit := unit.(status := Pending);
          unit := unit.(assignedNode := "");
          unit := unit.(errorMessage := "");
          SaveTwice(old(store.db).units, unitID, store.db.units[unitID], unit);
          store.SaveUnit(unit);
        } else {
          PropagateUnitStatus(unit, now);
        }
      }
    }

    method CancelJob(jobID: string, now: int) returns (found: bool)
      requires Keyed(store.db)
      modifies store
      ensures found == (jobID in old(store.db).jobs) && CancelDone(old(store.db), store.db, jobID, now)
    {
      if jobID !in store.db.jobs {
        return false;
      }
      var job := store.db.jobs[jobID];
      store.UpdateUnits(OfJob(jobID), IsCancellable(), Cancelled, JOB_CANCELLED, now);
      var stages: seq<Stage> := [];
      for i := 0 to |job.stages|
        invariant stages == CancelledStages(job.stages)[..i]
      {
        var stage := job.stages[i];
        if stage.status != StageCompleted && stage.status != StageFailed {
          stage := stage.(status := StageSkipped);
        }
        stages := stages + [stage];
      }
      assert stages == CancelledStages(job.stages);
      store.SaveJob(job.(stages := stages, status := JobCancelled, updatedAt := now, completedAt := now));
      found := true;
    }

    method ReclaimNodeUnits(nodeID: string, now: int)
      requires Keyed(store.db)
      modifies store
      ensures store.db == old(store.db).(units :=
        Rewritten(old(store.db).units, OnNode(nodeID), IsActive(), Becomes(UnitStatus.Failed, NODE_UNREGISTERED, now)))
    {
      store.UpdateUnits(OnNode(nodeID), IsActive(), UnitStatus.Failed, NODE_UNREGISTERED, now);
    }

    method UnregisterNode(registry: Registry, nodeID: string, now: int)
      requires Keyed(store.db)
      modifies store, registry
      ensures UnregisterDone(old(store.db), store.db, nodeID, now)
      ensures registry.nodes == old(registry.nodes) - {nodeID}
    {
      ReclaimNodeUnits(nodeID, now);
      registry.nodes := registry.nodes - {nodeID};
      store.DeleteNode(nodeID);
    }

    /** Splits each stage into units, stores them, then stores the job.  `split` is the number
        of units of a stage, or the error of executeSplit. */
    method SubmitJob(request: Job, freshID: string, freshStageIDs: seq<string>, split: Stage -> Option<nat>, now: int)
      returns (ok: bool)
      requires |freshStageIDs| == |request.stages|
      modifies store
      ensures ok ==> SubmitDone(old(store.db), store.db, WithIds(request, freshID, freshStageIDs, now), split)
      ensures !ok ==> SubmitFailed(old(store.db), store.db, WithIds(request, freshID, freshStageIDs, now), split)
      ensures ok ==>
        var id := if request.id == "" then freshID else request.id;
        && id in store.db.jobs && |store.db.jobs[id].stages| == |request.stages|
        && store.db.jobs[id] == request.(id := id, status := JobPending, updatedAt := now, stages := store.db.jobs[id].stages)
        && forall k :: 0 <= k < |request.stages| ==>
             store.db.jobs[id].stages[k] == request.stages[k].(id := if request.stages[k].id == "" then freshStageIDs[k] else request.stages[k].id)
    {
      var job := WithIds(request, freshID, freshStageIDs, now);
      assert UnitsOf(job.stages[..0], job.id, split) == map[];
      AddNothing(store.db.units);
      for k := 0 to |job.stages|
        invariant forall s :: s in job.stages[..k] ==> split(s).Some?
        invariant store.db == old(store.db).(units := old(store.db).units + UnitsOf(job.stages[..k], job.id, split))
      {
        var stage := job.stages[k];
        if split(stage).None? {
          return false;
        }
        NextSplit(job.stages, k, job.id, split);
        SaveUnits(stage.id, job.id, split(stage).value);
        AddMore(old(store.db).units, UnitsOf(job.stages[..k], job.id, split), UnitsOfStage(stage.id, job.id, split(stage).value));
      }
      assert job.stages[..|job.stages|] == job.stages;
      store.SaveJob(job);
      ok := true;
    }

    method SaveUnits(stageID: string, jobID: string, n: nat)
      modifies store
      ensures store.db == old(store.db).(units := old(store.db).units + UnitsOfStage(stageID, jobID, n))
    {
      AddNothing(store.db.units);
      for i := 0 to n
        invariant store.db == old(store.db).(units := old(store.db).units + UnitsOfStage(stageID, jobID, i))
      {
        AddOne(old(store.db).units, UnitsOfStage(stageID, jobID, i), UnitID(stageID, i), NewUnit(stageID, jobID, i));
        store.SaveUnit(NewUnit(stageID, jobID, i));
      }
    }
  }

  lemma SaveTwice<K, V>(m: map<K, V>, k: K, a: V, b: V)
    ensures m[k := a][k := b] == m[k := b]
  {
  }

  lemma VerdictOfList(units: map<string, Unit>, stageID: string, list: seq<Unit>, allTerminal: bool, hasFailed: bool)
    requires Listed(units, OfStage(stageID), list)
    requires !allTerminal <==> exists k :: 0 <= k < |list| && Cancellable(list[k].status)
    requires hasFailed <==> exists k :: 0 <= k < |list| && FailedUnit(list[k].status)
    ensures StageVerdict(units, stageID) ==
      if !allTerminal then StageRunning else if hasFailed then StageFailed else StageCompleted
  {
    ListedSome(units, stageID, list, Cancellable);
    ListedSome(units, stageID, list, FailedUnit);
  }

  lemma ListedSome(units: map<string, Unit>, stageID: string, list: seq<Unit>, test: UnitStatus -> bool)
    requires Listed(units, OfStage(stageID), list)
    ensures SomeUnit(units, stageID, test) <==> exists k :: 0 <= k < |list| && test(list[k].status)
  {
    if SomeUnit(units, stageID, test) {
      var id :| id in units && units[id].stageID == stageID && test(units[id].status);
      assert units[id] in list;
      var k :| 0 <= k < |list| && list[k] == units[id];
      assert test(list[k].status);
    }
    if k :| 0 <= k < |list| && test(list[k].status) {
      assert list[k].id in units && units[list[k].id].stageID == stageID;
    }
  }

  function Ids(stages: seq<Stage>): set<string> {
    set s | s in stages :: s.id
  }

  lemma OneMore<N>(visited: set<N>, failed: N, next: N)
    requires failed in visited && next !in visited
    ensures visited - {failed} + {next} == visited + {next} - {failed} && next !in visited - {failed}
  {
  }

  lemma DownstreamAre(stages: seq<Stage>, current: string, next: seq<string>, known: set<string>)
    requires forall b :: b in next <==> Feeds(stages, current, b)
    requires Ids(stages) <= known
    ensures (forall b :: b in next <==> Downstream(stages)(current, b)) && forall b :: b in next ==> b in known
  {
    forall b | b in next
      ensures b in known
    {
      FeedsIsStage(stages, current, b);
    }
  }

  lemma FeedsIsStage(stages: seq<Stage>, a: string, b: string)
    requires Feeds(stages, a, b)
    ensures b in Ids(stages)
  {
    var i :| 0 <= i < |stages| && stages[i].id == b;
    assert stages[i] in stages;
  }

  lemma ReachedIsNeeding(stages: seq<Stage>, failed: string, visited: set<string>)
    requires forall x :: x in visited <==> Reaches(Downstream(stages), failed, x)
    ensures visited - {failed} == NeedingIds(stages, failed)
  {
    forall x
      ensures x in visited - {failed} <==> x in NeedingIds(stages, failed)
    {
      NeedingIsStage(stages, failed, x);
    }
  }

  /** The relation as far as the two loops that record it have come. */
  ghost predicate FeedsUpTo(stages: seq<Stage>, row: nat, column: nat, a: string, b: string)
    requires row <= |stages| && (row < |stages| ==> column <= |stages[row].dependsOn|)
  {
    exists i, j :: 0 <= i < |stages| && 0 <= j < |stages[i].dependsOn| && (i < row || (i == row && j < column))
      && stages[i].id == b && Cascade.Names(stages, stages[i].dependsOn[j], a)
  }

  lemma FeedsMore(stages: seq<Stage>, row: nat, column: nat, was: map<string, seq<string>>, now: map<string, seq<string>>)
    requires row < |stages| && column < |stages[row].dependsOn|
    requires forall a, b :: b in Topo.DependentsIn(was, a) <==> FeedsUpTo(stages, row, column, a, b)
    requires
      var dep := FirstNamed(stages, stages[row].dependsOn[column]);
      now == if dep.None? then was
             else was[dep.value.id := Topo.DependentsIn(was, dep.value.id) + [stages[row].id]]
    ensures forall a, b :: b in Topo.DependentsIn(now, a) <==> FeedsUpTo(stages, row, column + 1, a, b)
  {
    var dep := FirstNamed(stages, stages[row].dependsOn[column]);
    if dep.Some? { Topo.InDependents(was, dep.value.id, stages[row].id); }
    forall a, b
      ensures b in Topo.DependentsIn(now, a) <==> FeedsUpTo(stages, row, column + 1, a, b)
    {
      FeedsUpToNext(stages, row, column, a, b);
      assert b in Topo.DependentsIn(now, a) <==>
        b in Topo.DependentsIn(was, a) || (dep.Some? && dep.value.id == a && stages[row].id == b);
    }
  }

  lemma FeedsUpToNext(stages: seq<Stage>, row: nat, column: nat, a: string, b: string)
    requires row < |stages| && column < |stages[row].dependsOn|
    ensures FeedsUpTo(stages, row, column + 1, a, b) <==>
      FeedsUpTo(stages, row, column, a, b) || (stages[row].id == b && Cascade.Names(stages, stages[row].dependsOn[column], a))
  {
  }

  lemma FeedsRow(stages: seq<Stage>, row: nat)
    requires row < |stages|
    ensures forall a, b :: FeedsUpTo(stages, row + 1, 0, a, b) <==> FeedsUpTo(stages, row, |stages[row].dependsOn|, a, b)
  {
  }

  lemma FeedsAll(stages: seq<Stage>)
    ensures forall a, b :: FeedsUpTo(stages, |stages|, 0, a, b) <==> Feeds(stages, a, b)
  {
    forall a, b | Feeds(stages, a, b)
      ensures FeedsUpTo(stages, |stages|, 0, a, b)
    {
      var i, d :| 0 <= i < |stages| && stages[i].id == b && d in stages[i].dependsOn && Cascade.Names(stages, d, a);
      var j :| 0 <= j < |stages[i].dependsOn| && stages[i].dependsOn[j] == d;
    }
  }
}
