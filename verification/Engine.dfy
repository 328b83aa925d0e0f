/** The scheduling engine (scheduler/internal/scheduler/engine.go, dag.go, assigner.go,
    scorer.go): cycles that reclaim, retry and push, and pulls by nodes.  Each cycle and
    each pull is one atomic step. */
module Engine {
  import opened Cascade
  import opened Cycle
  import opened Dag
  import opened Graph
  import opened Lists
  import opened Model
  import opened NodeFilter
  import opened StoreView
  import Topo

  // ---------- batches of units in memory ----------

  function IdsOf(list: seq<Unit>): set<string> {
    set u | u in list :: u.id
  }

  /** Copies of stored units that can still be assigned, once each. */
  ghost predicate Fetched(units: map<string, Unit>, list: seq<Unit>) {
    && (forall i :: 0 <= i < |list| ==> Copied(units, list[i]))
    && (forall i, j :: 0 <= i < j < |list| ==> list[i].id != list[j].id)
  }

  ghost predicate Copied(units: map<string, Unit>, u: Unit) {
    u.id in units && Assignable(units[u.id].status) && u == InMemory(units[u.id])
  }

  predicate Assignable(s: UnitStatus) {
    s == Pending || s == UnitStatus.Failed
  }

  /** Exactly the units in `ids` were offered to the nodes. */
  ghost predicate Offered(cfg: Settings, nodes: map<string, Node>, j: Job, before: map<string, Unit>,
                          after: map<string, Unit>, ids: set<string>)
  {
    && before.Keys == after.Keys
    && forall id :: id in before ==>
         if id in ids then Pushed(cfg, nodes, j, before[id], after[id]) else after[id] == before[id]
  }

  // ---------- the best node ----------

  function ScoreOf(cfg: Settings, u: Unit, j: Job): Node -> real {
    (n: Node) => cfg.score(n, SpecFor(u, j))
  }

  /** The first of the ranked candidates is a best suitable node. */
  lemma FirstIsBest(cfg: Settings, nodes: map<string, Node>, u: Unit, j: Job, online: seq<Node>, ranked: seq<Node>)
    requires forall id :: id in nodes ==> nodes[id].id == id
    requires forall n :: n in online <==> n.id in nodes && nodes[n.id] == n && Up(n)
    requires Descending(ranked, ScoreOf(cfg, u, j))
    requires multiset(ranked) == multiset(Keep(Keep(online, Pipeline(RequestFor(cfg, nodes, u, j))), Positive(ScoreOf(cfg, u, j))))
    ensures forall id :: Suitable(cfg, nodes, u, j, id) <==> id in nodes && nodes[id] in ranked
    ensures ranked != [] ==> ranked[0].id in nodes && nodes[ranked[0].id] == ranked[0] && Best(cfg, nodes, u, j, ranked[0].id)
  {
    var q := RequestFor(cfg, nodes, u, j);
    forall n
      ensures n in ranked <==> n.id in nodes && nodes[n.id] == n && Suitable(cfg, nodes, u, j, n.id)
    {
      assert n in ranked <==> n in multiset(ranked);
      InKeep(Keep(online, Pipeline(q)), Positive(ScoreOf(cfg, u, j)), n);
      InKeep(online, Pipeline(q), n);
      PipelineIsUp(q, n);
    }
    if ranked != [] {
      assert ranked[0] in ranked;
      forall other | Suitable(cfg, nodes, u, j, other)
        ensures cfg.score(nodes[other], SpecFor(u, j)) <= cfg.score(ranked[0], SpecFor(u, j))
      {
        var k :| 0 <= k < |ranked| && ranked[k] == nodes[other];
        assert ScoreOf(cfg, u, j)(ranked[0]) >= ScoreOf(cfg, u, j)(ranked[k]);
      }
    }
  }

  class Engine {
    const store: Buckets
    const registry: Registry
    const cfg: Settings

    constructor (store: Buckets, registry: Registry, cfg: Settings)
      ensures this.store == store && this.registry == registry && this.cfg == cfg
    {
      this.store, this.registry, this.cfg := store, registry, cfg;
    }

    ghost predicate Valid()
      reads registry
    {
      forall id :: id in registry.nodes ==> registry.nodes[id].id == id
    }

    // ---------- choosing a node ----------

    /** The schedulable nodes of the registry, in some order. */
    method ListOnline() returns (list: seq<Node>)
      requires Valid()
      ensures forall n :: n in list <==> n.id in registry.nodes && registry.nodes[n.id] == n && Up(n)
    {
      list := [];
      var rest := registry.nodes.Keys;
      while rest != {}
        invariant rest <= registry.nodes.Keys
        invariant forall n :: n in list <==>
          n.id in registry.nodes && n.id !in rest && registry.nodes[n.id] == n && Up(n)
        decreases rest
      {
        var id :| id in rest;
        rest := rest - {id};
        if Up(registry.nodes[id]) {
          list := list + [registry.nodes[id]];
        }
      }
    }

    /** Filters, scores and ranks the nodes for one unit. */
    method BestNode(u: Unit, j: Job) returns (best: Option<Node>)
      requires Valid()
      ensures best.None? <==> forall id :: !Suitable(cfg, registry.nodes, u, j, id)
      ensures best.Some? ==> Best(cfg, registry.nodes, u, j, best.value.id)
    {
      var online := ListOnline();
      var candidates := Filter(RequestFor(cfg, registry.nodes, u, j), online);
      var ranked := RankPositive(candidates, ScoreOf(cfg, u, j));
      FirstIsBest(cfg, registry.nodes, u, j, online, ranked);
      best := if ranked == [] then None else Some(ranked[0]);
    }

    // ---------- assigning ----------

    /** Looks at the stored unit again and assigns the copy if it can still be assigned. */
    method AssignUnit(unit: Unit, node: Node) returns (ok: bool)
      modifies store
      ensures ok <==> unit.id in old(store.db).units && Assignable(old(store.db).units[unit.id].status)
      ensures store.db == if ok
        then old(store.db).(units := old(store.db).units[unit.id := unit.(assignedNode := node.id, status := Assigned)])
        else old(store.db)
    {
      if unit.id !in store.db.units {
        return false;
      }
      var current := store.db.units[unit.id];
      if current.status != Pending && current.status != UnitStatus.Failed {
        return false;
      }
      store.SaveUnit(unit.(assignedNode := node.id, status := Assigned));
      ok := true;
    }

    method AssignUnits(list: seq<Unit>, job: Job)
      requires Valid() && Fetched(store.db.units, list)
      modifies store
      ensures store.db == old(store.db).(units := store.db.units)
      ensures Offered(cfg, registry.nodes, job, old(store.db).units, store.db.units, IdsOf(list))
    {
      ghost var before := store.db.units;
      for i := 0 to |list|
        invariant store.db == old(store.db).(units := store.db.units)
        invariant Offered(cfg, registry.nodes, job, before, store.db.units, IdsOf(list[..i]))
      {
        var best := BestNode(list[i], job);
        ghost var was := store.db.units;
        if best.Some? {
          OfferNext(cfg, registry.nodes, job, before, was, list, i, best.value.id);
          var ok := AssignUnit(list[i], best.value);
        } else {
          OfferNone(cfg, registry.nodes, job, before, was, list, i);
        }
      }
      assert list[..|list|] == list;
    }

    // ---------- one workflow ----------

    method AnyDepFailed(stages: seq<Stage>, deps: seq<string>) returns (failed: bool)
      ensures failed == SomeDepFailed(stages, deps)
    {
      failed := false;
      for i := 0 to |deps|
        invariant !failed && forall j :: 0 <= j < i ==> !Cycle.DepFailed(stages, deps[j])
      {
        var k := FindStageByName(stages, deps[i]);
        if k >= 0 && stages[k].status == StageFailed {
          assert deps[i] in deps && Cycle.DepFailed(stages, deps[i]);
          return true;
        }
      }
    }

    method AllDepsCompleted(stages: seq<Stage>, deps: seq<string>) returns (met: bool)
      ensures met == DepsMet(stages, deps)
    {
      met := true;
      for i := 0 to |deps|
        invariant met && forall j :: 0 <= j < i ==> DepCompleted(stages, deps[j])
      {
        var k := FindStageByName(stages, deps[i]);
        if k < 0 || stages[k].status != StageCompleted {
          assert deps[i] in deps && !DepCompleted(stages, deps[i]);
          return false;
        }
      }
    }

    /** One stage of the survey. */
    method LookAt(ghost before: Db, job: Job, s: Stage, copy: seq<Stage>, ghost skipped: set<string>,
                  ghost readyIds: set<string>, ghost list: seq<Unit>, unitsByStage: map<string, seq<Unit>>,
                  collected: seq<Unit>, now: int)
      returns (stages: seq<Stage>, ready: seq<Unit>)
      requires Marking(before, store.db, job.id, copy, skipped, now) && before.jobs[job.id] == job
      requires Topo.UniqueNames(job.stages) && s in job.stages && s.id !in skipped && s.id !in readyIds
      requires DistinctIds(list) && Collected(list, readyIds, collected) && Grouped(list, unitsByStage)
      modifies store
      ensures Marking(before, store.db, job.id, stages, skipped + (if Hopeless(job.stages, s) then {s.id} else {}), now)
      ensures Collected(list, readyIds + (if ReadyToPush(job.stages, s) then {s.id} else {}), ready)
    {
      stages, ready := copy, collected;
      PlusNothing(skipped);
      PlusNothing(readyIds);
      var k := FindStageByName(stages, s.name);
      FoundByName(job.stages, skipped, s, k);
      MarkedAllDeps(job.stages, skipped, s.dependsOn);
      var stage := stages[k];
      if stage.status == StageCompleted || stage.status == StageFailed || stage.status == StageSkipped {
        return;
      }
      var depFailed := AnyDepFailed(stages, stage.dependsOn);
      if depFailed {
        stages := SkipStage(store, before, job.id, stages, skipped, k, now);
        return;
      }
      var depsMet := AllDepsCompleted(stages, stage.dependsOn);
      if depsMet {
        var group := if stage.id in unitsByStage then unitsByStage[stage.id] else [];
        GroupOfStage(list, stage.id, unitsByStage);
        CollectStage(list, readyIds, ready, stage.id, group);
        ready := ready + group;
      }
    }

    /** Looks at the stages in topological order: skips the hopeless ones and collects the
        units of the ready ones. */
    method Survey(job: Job, sorted: seq<Stage>, list: seq<Unit>, now: int) returns (stages: seq<Stage>, ready: seq<Unit>)
      requires Keyed(store.db) && StagesApart(store.db.jobs) && job.id in store.db.jobs && store.db.jobs[job.id] == job
      requires Topo.UniqueNames(job.stages) && multiset(sorted) == multiset(job.stages) && DistinctIds(list)
      modifies store
      ensures Marking(old(store.db), store.db, job.id, stages, SkipIds(job.stages), now)
      ensures Collected(list, ReadyIds(job.stages), ready)
    {
      ghost var before := store.db;
      var unitsByStage := GroupBy(list, StageOf());
      stages, ready := job.stages, [];
      MarkingStarts(before, job.id, now);
      assert HopelessAmong(job.stages, sorted[..0]) == {} && ReadyAmong(job.stages, sorted[..0]) == {};
      for i := 0 to |sorted|
        invariant Marking(before, store.db, job.id, stages, HopelessAmong(job.stages, sorted[..i]), now)
        invariant Collected(list, ReadyAmong(job.stages, sorted[..i]), ready)
      {
        SeenNext(job.stages, sorted, i);
        NewId(job.stages, sorted, i);
        stages, ready := LookAt(before, job, sorted[i], stages, HopelessAmong(job.stages, sorted[..i]),
                                ReadyAmong(job.stages, sorted[..i]), list, unitsByStage, ready, now);
      }
      assert sorted[..|sorted|] == sorted;
      SeenAll(job.stages, sorted);
    }

    method ScheduleWorkflow(job: Job, list: seq<Unit>, now: int)
      requires Valid() && Keyed(store.db) && StagesApart(store.db.jobs)
      requires job.id in store.db.jobs && store.db.jobs[job.id] == job && Fetched(store.db.units, list)
      modifies store
      ensures !Topo.Sortable(job.stages) ==> store.db == old(store.db)
      ensures Topo.Sortable(job.stages) ==>
        WorkflowDone(cfg, registry.nodes, old(store.db), store.db, job.id, list, now)
    {
      var sorted := Topo.TopologicalSort(job.stages);
      if sorted.None? {
        return;
      }
      ghost var before := store.db;
      var stages, ready := Survey(job, sorted.value, list, now);
      ghost var mid := store.db;
      ReadyAreFetched(before, mid, job.id, stages, list, ready, now);
      if |ready| > 0 {
        AssignUnits(ready, job.(stages := stages));
      } else {
        OfferNothing(cfg, registry.nodes, job.(stages := stages), mid.units);
      }
      WorkflowEnds(cfg, registry.nodes, before, mid, store.db, job.id, stages, list, ready, now);
    }

    method ScheduleJob(job: Job, list: seq<Unit>, now: int)
      requires Valid() && Keyed(store.db) && StagesApart(store.db.jobs)
      requires job.id in store.db.jobs && store.db.jobs[job.id] == job && Fetched(store.db.units, list)
      modifies store
      ensures JobScheduled(cfg, registry.nodes, old(store.db), store.db, job.id, list, now)
    {
      if job.jobType == Workflow {
        ScheduleWorkflow(job, list, now);
      } else {
        AssignUnits(list, job);
      }
    }

    // ---------- one cycle ----------

    /** Two lists, one after the other. */
    method ListActiveUnits() returns (list: seq<Unit>)
      requires Keyed(store.db)
      ensures Listed(store.db.units, IsActive(), list)
    {
      var given := ListUnits(store.db.units, HasStatus(Assigned));
      var running := ListUnits(store.db.units, HasStatus(Running));
      ActiveLists(store.db.units, given, running);
      list := given + running;
    }

    method ReclaimStaleUnits(message: string, now: int)
      requires Keyed(store.db)
      modifies store
      ensures store.db == old(store.db).(units := Reclaimed(old(store.db).units, registry.nodes, message, now))
    {
      var staleUnits := ListActiveUnits();
      store.UpdateListed(staleUnits, IsActive(), IsStranded(registry.nodes), UnitStatus.Failed, message, now);
    }

    method LoadRetryEligibleUnits(now: int) returns (retryable: seq<Unit>)
      requires Keyed(store.db)
      ensures Fetched(store.db.units, retryable)
      ensures forall id :: id in IdsOf(retryable) <==> id in store.db.units && Retryable(cfg, store.db.units[id], now)
    {
      var failed := ListUnits(store.db.units, IsFailed());
      retryable := [];
      assert failed[..0] == [];
      for i := 0 to |failed|
        invariant Retries(cfg, store.db.units, failed[..i], retryable, now)
      {
        var u := failed[i];
        RetryNext(cfg, store.db.units, failed, i, retryable, now);
        if u.retryCount >= cfg.maxRetries {
          continue;
        }
        if now - u.completedAt < cfg.reassignDelay {
          continue;
        }
        retryable := retryable + [u.(status := Pending, assignedNode := "", errorMessage := "")];
      }
      assert failed[..|failed|] == failed;
      RetryAll(cfg, store.db.units, failed, retryable, now);
    }

    /** All waiting units and those to be retried. */
    method FetchUnits(now: int) returns (allUnits: seq<Unit>)
      requires Keyed(store.db)
      ensures Batch(cfg, store.db.units, allUnits, now)
    {
      var pending := ListUnits(store.db.units, IsPending());
      var retryUnits := LoadRetryEligibleUnits(now);
      allUnits := pending + retryUnits;
      AllConsidered(cfg, store.db.units, pending, retryUnits, now);
    }

    /** One job of a cycle: skipped unless it is stored and has not ended. */
    method VisitJob(ghost db: Db, ghost done: set<string>, ghost batch: seq<Unit>, jobID: string, units: seq<Unit>, now: int)
      requires Valid() && Progress(cfg, registry.nodes, db, now)(store.db, done) && jobID !in done
      requires Batch(cfg, db.units, batch, now) && JobGroup(batch, jobID, units)
      modifies store
      ensures Progress(cfg, registry.nodes, db, now)(store.db, done + {jobID})
    {
      HalfJob(cfg, registry.nodes, db, store.db, done, jobID, now);
      if jobID !in store.db.jobs {
        HalfPasses(cfg, registry.nodes, db, store.db, done, jobID, now);
        return;
      }
      var job := store.db.jobs[jobID];
      if job.status != JobPending && job.status != JobRunning {
        HalfPasses(cfg, registry.nodes, db, store.db, done, jobID, now);
        return;
      }
      ghost var was := store.db;
      GroupOfJob(cfg, db, batch, jobID, units, now);
      StillFetched(cfg, registry.nodes, db, was, done, jobID, units, now);
      ScheduleJob(job, units, now);
      HalfNext(cfg, registry.nodes, db, was, store.db, done, jobID, units, now);
    }

    method GroupByJob(batch: seq<Unit>) returns (groups: map<string, seq<Unit>>)
      ensures forall k :: k in groups ==> JobGroup(batch, k, groups[k])
      ensures groups.Keys == JobIds(batch)
    {
      groups := GroupBy(batch, JobOf());
      forall k
        ensures k in groups <==> k in JobIds(batch)
      {
        assert forall u :: u in batch ==> JobOf()(u) == u.jobID;
      }
    }

    /** The jobs of the batch, in any order. */
    method VisitJobs(ghost db: Db, ghost batch: seq<Unit>, unitsByJob: map<string, seq<Unit>>, now: int)
      requires Valid() && Progress(cfg, registry.nodes, db, now)(store.db, {}) && Batch(cfg, db.units, batch, now)
      requires forall k :: k in unitsByJob ==> JobGroup(batch, k, unitsByJob[k])
      modifies store
      ensures Progress(cfg, registry.nodes, db, now)(store.db, unitsByJob.Keys)
    {
      ghost var progress := Progress(cfg, registry.nodes, db, now);
      ghost var done: set<string> := {};
      var rest := unitsByJob.Keys;
      while rest != {}
        invariant Divided(unitsByJob.Keys, done, rest) && progress(store.db, done)
        decreases rest
      {
        var jobID :| jobID in rest;
        TakeOne(unitsByJob.Keys, done, rest, jobID);
        VisitJob(db, done, batch, jobID, unitsByJob[jobID], now);
        rest := rest - {jobID};
        done := done + {jobID};
      }
      AllTaken(unitsByJob.Keys, done);
    }

    /** One scheduling cycle. */
    method ScheduleOnce(message: string, now: int)
      requires Valid() && Keyed(store.db) && StagesApart(store.db.jobs) && Linked(store.db)
      modifies store
      ensures CycleDone(cfg, registry.nodes, old(store.db), store.db, message, now)
    {
      ReclaimStaleUnits(message, now);
      ReclaimKeeps(old(store.db), store.db, registry.nodes, message, now);
      var allUnits := FetchUnits(now);
      if |allUnits| == 0 {
        NothingConsidered(cfg, registry.nodes, store.db, now);
        return;
      }
      ghost var db := store.db;
      var unitsByJob := GroupByJob(allUnits);
      HalfStarts(cfg, registry.nodes, db, now);
      VisitJobs(db, allUnits, unitsByJob, now);
      HalfEnds(cfg, registry.nodes, db, store.db, allUnits, unitsByJob.Keys, now);
    }

    // ---------- one pull ----------

    method IsStageReady(stages: seq<Stage>, stageID: string) returns (ready: bool)
      ensures ready == ReadyToPull(stages, stageID)
    {
      var k := FindStageByID(stages, stageID);
      if k < 0 {
        return false;
      }
      ready := AllDepsCompleted(stages, stages[k].dependsOn);
    }

    /** The tests of the loop, in its order. */
    method CanPull(nodeID: string, unit: Unit) returns (ok: bool)
      requires nodeID in registry.nodes && unit.status == Pending
      ensures ok <==> Passing(cfg, registry.nodes, store.db, nodeID, unit)
    {
      if unit.jobID !in store.db.jobs {
        return false;
      }
      var job := store.db.jobs[unit.jobID];
      if job.jobType == Workflow {
        var ready := IsStageReady(job.stages, unit.stageID);
        if !ready {
          return false;
        }
      }
      if job.status != JobPending && job.status != JobRunning {
        return false;
      }
      ok := NodePassesFilter(RequestFor(cfg, registry.nodes, unit, job), registry.nodes[nodeID]);
    }

    method AssignToNode(nodeID: string) returns (given: Option<Unit>)
      requires Keyed(store.db)
      modifies store
      ensures PullDone(cfg, registry.nodes, old(store.db), store.db, nodeID, given)
    {
      if nodeID !in registry.nodes {
        return None;
      }
      var pendingUnits := ListUnits(store.db.units, IsPending());
      var bestUnit: Option<Unit> := None;
      var bestScore := -1.0;
      for i := 0 to |pendingUnits|
        modifies {}
        invariant BestSoFar(cfg, registry.nodes, store.db, nodeID, pendingUnits[..i], bestUnit, bestScore)
      {
        var unit := pendingUnits[i];
        assert pendingUnits[..i + 1] == pendingUnits[..i] + [unit];
        var ok := CanPull(nodeID, unit);
        if !ok {
          continue;
        }
        var score := cfg.score(registry.nodes[nodeID], SpecFor(unit, store.db.jobs[unit.jobID]));
        if score > bestScore {
          bestScore := score;
          bestUnit := Some(unit);
        }
      }
      assert pendingUnits[..|pendingUnits|] == pendingUnits;
      PullEnds(cfg, registry.nodes, store.db, nodeID, pendingUnits, bestUnit, bestScore);
      if bestUnit.None? {
        return None;
      }
      var unit := bestUnit.value.(assignedNode := nodeID, status := Assigned);
      store.SaveUnit(unit);
      given := Some(unit);
    }
  }

  lemma IdsNext(list: seq<Unit>, i: nat)
    requires i < |list|
    ensures IdsOf(list[..i + 1]) == IdsOf(list[..i]) + {list[i].id}
    ensures (forall a, b :: 0 <= a < b < |list| ==> list[a].id != list[b].id) ==> list[i].id !in IdsOf(list[..i])
  {
    assert list[..i + 1] == list[..i] + [list[i]];
  }

  lemma OfferNext(cfg: Settings, nodes: map<string, Node>, j: Job, before: map<string, Unit>, was: map<string, Unit>,
                  list: seq<Unit>, i: nat, nodeID: string)
    requires i < |list| && Fetched(before, list) && Offered(cfg, nodes, j, before, was, IdsOf(list[..i]))
    requires Best(cfg, nodes, list[i], j, nodeID)
    ensures list[i].id in was && was[list[i].id] == before[list[i].id]
    ensures Copied(before, list[i])
    ensures Offered(cfg, nodes, j, before, was[list[i].id := list[i].(assignedNode := nodeID, status := Assigned)],
                    IdsOf(list[..i + 1]))
  {
    IdsNext(list, i);
    var id := list[i].id;
    assert Copied(before, list[i]);
    assert Pushed(cfg, nodes, j, before[id], GivenTo(before[id], nodeID));
  }

  lemma OfferNone(cfg: Settings, nodes: map<string, Node>, j: Job, before: map<string, Unit>, was: map<string, Unit>,
                  list: seq<Unit>, i: nat)
    requires i < |list| && Fetched(before, list) && Offered(cfg, nodes, j, before, was, IdsOf(list[..i]))
    requires forall id :: !Suitable(cfg, nodes, list[i], j, id)
    ensures Offered(cfg, nodes, j, before, was, IdsOf(list[..i + 1]))
  {
    IdsNext(list, i);
    assert Copied(before, list[i]);
  }

  function StageOf(): Unit -> string {
    (u: Unit) => u.stageID
  }

  ghost predicate Divided<N>(all: set<N>, done: set<N>, rest: set<N>) {
    done !! rest && done + rest == all
  }

  lemma TakeOne<N>(all: set<N>, done: set<N>, rest: set<N>, x: N)
    requires Divided(all, done, rest) && x in rest
    ensures Divided(all, done + {x}, rest - {x}) && x !in done && x in all && rest - {x} < rest
  {
  }

  lemma AllTaken<N>(all: set<N>, done: set<N>)
    requires Divided(all, done, {})
    ensures done == all
  {
  }

  lemma PlusNothing<N>(s: set<N>)
    ensures s + {} == s
  {
  }

  ghost predicate Grouped(list: seq<Unit>, groups: map<string, seq<Unit>>) {
    && (forall id :: id in groups ==> groups[id] == Keep(list, HasKey(StageOf(), id)))
    && (forall id :: id in groups <==> exists u :: u in list && StageOf()(u) == id)
  }

  lemma GroupOfStage(list: seq<Unit>, stageID: string, groups: map<string, seq<Unit>>)
    requires DistinctIds(list) && Grouped(list, groups)
    ensures
      var group := if stageID in groups then groups[stageID] else [];
      DistinctIds(group) && forall u :: u in group <==> u in list && u.stageID == stageID
  {
    if stageID in groups {
      KeepDistinctIds(list, HasKey(StageOf(), stageID));
      forall u
        ensures u in groups[stageID] <==> u in list && u.stageID == stageID
      {
        InKeep(list, HasKey(StageOf(), stageID), u);
      }
    } else {
      forall u | u in list
        ensures u.stageID != stageID
      {
        assert StageOf()(u) == u.stageID;
      }
    }
  }

  /** One workflow scheduled: hopeless stages skipped, their units cancelled, and the units of
      `list` in ready stages offered to the nodes. */
  ghost predicate WorkflowDone(cfg: Settings, nodes: map<string, Node>, before: Db, after: Db, jobID: string,
                               list: seq<Unit>, now: int)
    requires jobID in before.jobs
  {
    var job := before.jobs[jobID];
    var units := CancelStages(before.units, SkipIds(job.stages), now);
    && jobID in after.jobs && Restaged(job, after.jobs[jobID], Marked(job.stages, SkipIds(job.stages)))
    && after == before.(jobs := before.jobs[jobID := after.jobs[jobID]], units := after.units)
    && Offered(cfg, nodes, job, units, after.units, IdsIn(list, ReadyIds(job.stages)))
  }

  function IdsIn(list: seq<Unit>, stageIDs: set<string>): set<string> {
    set u | u in list && u.stageID in stageIDs :: u.id
  }

  lemma OfferNothing(cfg: Settings, nodes: map<string, Node>, j: Job, units: map<string, Unit>)
    ensures Offered(cfg, nodes, j, units, units, {})
  {
  }

  lemma ReadyAreFetched(before: Db, mid: Db, jobID: string, stages: seq<Stage>, list: seq<Unit>, ready: seq<Unit>, now: int)
    requires jobID in before.jobs && Marking(before, mid, jobID, stages, SkipIds(before.jobs[jobID].stages), now)
    requires Fetched(before.units, list) && Collected(list, ReadyIds(before.jobs[jobID].stages), ready)
    ensures Fetched(mid.units, ready)
  {
    var original := before.jobs[jobID].stages;
    SkipIdsMarked(original);
    forall i | 0 <= i < |ready|
      ensures Copied(mid.units, ready[i])
    {
      assert ready[i] in ready && ready[i] in list;
      var k :| 0 <= k < |list| && list[k] == ready[i];
      assert Copied(before.units, list[k]);
      ReadyNotSkipped(original, ready[i].stageID);
    }
  }

  lemma WorkflowEnds(cfg: Settings, nodes: map<string, Node>, before: Db, mid: Db, after: Db, jobID: string,
                     stages: seq<Stage>, list: seq<Unit>, ready: seq<Unit>, now: int)
    requires jobID in before.jobs && Marking(before, mid, jobID, stages, SkipIds(before.jobs[jobID].stages), now)
    requires Collected(list, ReadyIds(before.jobs[jobID].stages), ready)
    requires after == mid.(units := after.units)
    requires Offered(cfg, nodes, before.jobs[jobID].(stages := stages), mid.units, after.units, IdsOf(ready))
    ensures WorkflowDone(cfg, nodes, before, after, jobID, list, now)
  {
    var job := before.jobs[jobID];
    SkipIdsMarked(job.stages);
    assert IdsOf(ready) == IdsIn(list, ReadyIds(job.stages));
    forall id | id in mid.units && id in IdsOf(ready)
      ensures Pushed(cfg, nodes, job, mid.units[id], after.units[id])
    {
      MarkedPushed(cfg, nodes, job, SkipIds(job.stages), mid.units[id], after.units[id]);
    }
  }

  function JobOf(): Unit -> string {
    (u: Unit) => u.jobID
  }

  function HasStatus(status: UnitStatus): Unit -> bool {
    (u: Unit) => u.status == status
  }

  ghost predicate JobScheduled(cfg: Settings, nodes: map<string, Node>, before: Db, after: Db, jobID: string,
                               list: seq<Unit>, now: int)
    requires jobID in before.jobs
  {
    var job := before.jobs[jobID];
    if job.jobType != Workflow then
      after == before.(units := after.units) && Offered(cfg, nodes, job, before.units, after.units, IdsOf(list))
    else if Topo.Sortable(job.stages) then WorkflowDone(cfg, nodes, before, after, jobID, list, now)
    else after == before
  }

  lemma ActiveLists(units: map<string, Unit>, given: seq<Unit>, running: seq<Unit>)
    requires Listed(units, HasStatus(Assigned), given) && Listed(units, HasStatus(Running), running)
    requires forall id :: id in units ==> units[id].id == id
    ensures Listed(units, IsActive(), given + running)
  {
    var list := given + running;
    forall i, j | 0 <= i < j < |list|
      ensures list[i].id != list[j].id
    {
      if i < |given| <= j {
        assert given[i].status != running[j - |given|].status;
      }
    }
    forall id | id in units && IsActive()(units[id])
      ensures units[id] in list
    {
      if units[id].status == Assigned { assert units[id] in given; } else { assert units[id] in running; }
    }
  }

  /** The copies made so far. */
  ghost predicate Retries(cfg: Settings, units: map<string, Unit>, seen: seq<Unit>, retryable: seq<Unit>, now: int) {
    && Fetched(units, retryable)
    && (forall r :: r in retryable ==> exists k :: 0 <= k < |seen| && seen[k].id == r.id && Retryable(cfg, seen[k], now))
    && (forall k :: 0 <= k < |seen| && Retryable(cfg, seen[k], now) ==> seen[k].id in IdsOf(retryable))
  }

  lemma RetryNext(cfg: Settings, units: map<string, Unit>, failed: seq<Unit>, i: nat, retryable: seq<Unit>, now: int)
    requires i < |failed| && Listed(units, IsFailed(), failed) && Retries(cfg, units, failed[..i], retryable, now)
    ensures !Retryable(cfg, failed[i], now) ==> Retries(cfg, units, failed[..i + 1], retryable, now)
    ensures Retryable(cfg, failed[i], now) ==> Retries(cfg, units, failed[..i + 1], retryable + [InMemory(failed[i])], now)
    ensures failed[i].status == UnitStatus.Failed
  {
    assert failed[..i + 1] == failed[..i] + [failed[i]];
    if Retryable(cfg, failed[i], now) {
      assert Copied(units, InMemory(failed[i]));
      forall r | r in retryable
        ensures r.id != failed[i].id
      {
        var k :| 0 <= k < |failed[..i]| && failed[..i][k].id == r.id;
        assert failed[k].id == r.id;
      }
      RetryMore(cfg, units, failed[..i], failed[i], retryable, now);
    } else {
      RetrySkip(cfg, units, failed[..i], failed[i], retryable, now);
    }
  }

  lemma RetrySkip(cfg: Settings, units: map<string, Unit>, seen: seq<Unit>, u: Unit, retryable: seq<Unit>, now: int)
    requires Retries(cfg, units, seen, retryable, now) && !Retryable(cfg, u, now)
    ensures Retries(cfg, units, seen + [u], retryable, now)
  {
    var later := seen + [u];
    forall r | r in retryable
      ensures exists k :: 0 <= k < |later| && later[k].id == r.id && Retryable(cfg, later[k], now)
    {
      var k :| 0 <= k < |seen| && seen[k].id == r.id && Retryable(cfg, seen[k], now);
      assert later[k] == seen[k];
    }
  }

  lemma RetryMore(cfg: Settings, units: map<string, Unit>, seen: seq<Unit>, u: Unit, retryable: seq<Unit>, now: int)
    requires Retries(cfg, units, seen, retryable, now) && Retryable(cfg, u, now) && Copied(units, InMemory(u))
    requires forall r :: r in retryable ==> r.id != u.id
    ensures Retries(cfg, units, seen + [u], retryable + [InMemory(u)], now)
  {
    var more, later := retryable + [InMemory(u)], seen + [u];
    assert InMemory(u).id == u.id && later[|seen|] == u;
    forall r | r in more
      ensures exists k :: 0 <= k < |later| && later[k].id == r.id && Retryable(cfg, later[k], now)
    {
      if r in retryable {
        var k :| 0 <= k < |seen| && seen[k].id == r.id && Retryable(cfg, seen[k], now);
        assert later[k] == seen[k];
      }
    }
    assert IdsOf(more) == IdsOf(retryable) + {u.id} by {
      assert InMemory(u) in more;
    }
  }

  lemma RetryAll(cfg: Settings, units: map<string, Unit>, failed: seq<Unit>, retryable: seq<Unit>, now: int)
    requires Listed(units, IsFailed(), failed) && Retries(cfg, units, failed, retryable, now)
    requires forall id :: id in units ==> units[id].id == id
    ensures forall id :: id in IdsOf(retryable) <==> id in units && Retryable(cfg, units[id], now)
  {
    forall id | id in units && Retryable(cfg, units[id], now)
      ensures id in IdsOf(retryable)
    {
      assert units[id] in failed;
      var k :| 0 <= k < |failed| && failed[k] == units[id];
    }
  }

  // ---------- a cycle, job by job ----------

  function JobIds(batch: seq<Unit>): set<string> {
    set u | u in batch :: u.jobID
  }

  ghost predicate JobGroup(batch: seq<Unit>, jobID: string, group: seq<Unit>) {
    group == Keep(batch, HasKey(JobOf(), jobID)) && jobID in JobIds(batch)
  }

  /** The batch: copies of all the units to be considered. */
  ghost predicate Batch(cfg: Settings, units: map<string, Unit>, batch: seq<Unit>, now: int) {
    Fetched(units, batch) && forall id :: id in IdsOf(batch) <==> id in units && Eligible(cfg, units[id], now)
  }

  lemma AllConsidered(cfg: Settings, units: map<string, Unit>, pending: seq<Unit>, retryUnits: seq<Unit>, now: int)
    requires forall id :: id in units ==> units[id].id == id
    requires Listed(units, IsPending(), pending) && Fetched(units, retryUnits)
    requires forall id :: id in IdsOf(retryUnits) <==> id in units && Retryable(cfg, units[id], now)
    ensures Batch(cfg, units, pending + retryUnits, now)
  {
    var batch := pending + retryUnits;
    forall i | 0 <= i < |batch|
      ensures Copied(units, batch[i])
    {
    }
    forall i, j | 0 <= i < j < |batch|
      ensures batch[i].id != batch[j].id
    {
      if i < |pending| <= j {
        assert batch[j] in retryUnits && batch[j].id in IdsOf(retryUnits);
        assert units[batch[i].id].status == Pending;
      }
    }
    forall id | id in units && Eligible(cfg, units[id], now)
      ensures id in IdsOf(batch)
    {
      if units[id].status == Pending {
        assert units[id] in pending && units[id] in batch;
      } else {
        var u :| u in retryUnits && u.id == id;
        assert u in batch;
      }
    }
  }

  /** The jobs in `done` and their units have gone their way, the others wait. */
  ghost predicate Half(cfg: Settings, nodes: map<string, Node>, db: Db, mid: Db, done: set<string>, now: int) {
    && Keyed(db) && StagesApart(db.jobs) && Linked(db)
    && mid == db.(jobs := mid.jobs, units := mid.units)
    && HalfJobs(cfg, db, mid.jobs, done, now) && HalfUnits(cfg, nodes, db, mid.units, done, now)
  }

  ghost function Progress(cfg: Settings, nodes: map<string, Node>, db: Db, now: int): (Db, set<string>) -> bool {
    (mid: Db, done: set<string>) => Half(cfg, nodes, db, mid, done, now)
  }

  ghost predicate HalfJobs(cfg: Settings, db: Db, jobs: map<string, Job>, done: set<string>, now: int) {
    && jobs.Keys == db.jobs.Keys
    && (forall j :: j in db.jobs ==> if j in done then JobRel(cfg, db, now)(j, jobs[j]) else jobs[j] == db.jobs[j])
  }

  ghost predicate HalfUnits(cfg: Settings, nodes: map<string, Node>, db: Db, units: map<string, Unit>, done: set<string>,
                            now: int)
  {
    && units.Keys == db.units.Keys
    && (forall u :: u in db.units ==> HalfUnit(cfg, nodes, db, db.units[u], units[u], done, now))
  }

  ghost predicate HalfUnit(cfg: Settings, nodes: map<string, Node>, db: Db, before: Unit, after: Unit, done: set<string>,
                           now: int)
  {
    if before.jobID in done then UnitRel(cfg, nodes, db, now)(before, after) else after == before
  }

  ghost function JobRel(cfg: Settings, db: Db, now: int): (string, Job) -> bool {
    (j: string, after: Job) => j in db.jobs && JobCycled(cfg, db, j, after, now)
  }

  ghost function UnitRel(cfg: Settings, nodes: map<string, Node>, db: Db, now: int): (Unit, Unit) -> bool {
    (before: Unit, after: Unit) => UnitCycled(cfg, nodes, db, before, after, now)
  }

  lemma ReclaimKeeps(before: Db, db: Db, nodes: map<string, Node>, message: string, now: int)
    requires Keyed(before) && StagesApart(before.jobs) && Linked(before)
    requires db == before.(units := Reclaimed(before.units, nodes, message, now))
    ensures Keyed(db) && StagesApart(db.jobs) && Linked(db)
  {
  }

  lemma HalfJob(cfg: Settings, nodes: map<string, Node>, db: Db, mid: Db, done: set<string>, jobID: string, now: int)
    requires Progress(cfg, nodes, db, now)(mid, done) && jobID !in done
    ensures Keyed(mid) && StagesApart(mid.jobs) && (jobID in mid.jobs <==> jobID in db.jobs)
    ensures jobID in db.jobs ==> mid.jobs[jobID] == db.jobs[jobID] && db.jobs[jobID].id == jobID
  {
    HalfKeeps(cfg, nodes, db, mid, done, now);
  }

  lemma HalfStarts(cfg: Settings, nodes: map<string, Node>, db: Db, now: int)
    requires Keyed(db) && StagesApart(db.jobs) && Linked(db)
    ensures Progress(cfg, nodes, db, now)(db, {})
  {
  }

  lemma PushedSame(cfg: Settings, nodes: map<string, Node>, j: Job, before: Unit, after: Unit)
    requires Pushed(cfg, nodes, j, before, after)
    ensures after.id == before.id && after.jobID == before.jobID && after.stageID == before.stageID
    ensures after.retryCount == before.retryCount
  {
  }

  /** A cycle leaves a unit in its stage and job. */
  lemma CycledSame(cfg: Settings, nodes: map<string, Node>, db: Db, before: Unit, after: Unit, now: int)
    requires UnitCycled(cfg, nodes, db, before, after, now)
    ensures after.id == before.id && after.jobID == before.jobID && after.stageID == before.stageID
    ensures after.retryCount == before.retryCount
  {
    if Visited(cfg, db, before.jobID, now) {
      var job := db.jobs[before.jobID];
      if Pushed(cfg, nodes, job, before, after) { PushedSame(cfg, nodes, job, before, after); }
    }
  }

  lemma JobCycledSame(cfg: Settings, db: Db, jobID: string, after: Job, now: int)
    requires jobID in db.jobs && JobCycled(cfg, db, jobID, after, now)
    ensures after.id == db.jobs[jobID].id && SameIds(db.jobs[jobID].stages, after.stages)
  {
  }

  lemma HalfKeeps(cfg: Settings, nodes: map<string, Node>, db: Db, mid: Db, done: set<string>, now: int)
    requires Half(cfg, nodes, db, mid, done, now)
    ensures Keyed(mid) && StagesApart(mid.jobs)
    ensures forall u :: u in db.units ==>
      mid.units[u].jobID == db.units[u].jobID && mid.units[u].stageID == db.units[u].stageID
  {
    forall u | u in db.units
      ensures mid.units[u].id == u && mid.units[u].jobID == db.units[u].jobID && mid.units[u].stageID == db.units[u].stageID
    {
      if db.units[u].jobID in done { CycledSame(cfg, nodes, db, db.units[u], mid.units[u], now); }
    }
    forall j | j in db.jobs
      ensures mid.jobs[j].id == j && SameIds(db.jobs[j].stages, mid.jobs[j].stages)
    {
      if j in done { JobCycledSame(cfg, db, j, mid.jobs[j], now); }
    }
    AllApart(db.jobs, mid.jobs);
  }

  lemma AllApart(before: map<string, Job>, after: map<string, Job>)
    requires StagesApart(before) && before.Keys == after.Keys
    requires forall j :: j in before ==> SameIds(before[j].stages, after[j].stages)
    ensures StagesApart(after)
  {
    forall a, b | a in after && b in after && a != b
      ensures Apart(after[a].stages, after[b].stages)
    {
      SameIdsApart(before[a].stages, before[b].stages, after[a].stages, after[b].stages);
    }
    forall a | a in after
      ensures UniqueIds(after[a].stages)
    {
      assert SameIds(before[a].stages, after[a].stages) && UniqueIds(before[a].stages);
    }
  }

  /** The considered units of one job. */
  ghost predicate OfOneJob(cfg: Settings, db: Db, jobID: string, group: seq<Unit>, now: int) {
    && group != []
    && forall id :: id in IdsOf(group) <==> id in db.units && db.units[id].jobID == jobID && Eligible(cfg, db.units[id], now)
  }

  lemma GroupOfJob(cfg: Settings, db: Db, batch: seq<Unit>, jobID: string, group: seq<Unit>, now: int)
    requires Batch(cfg, db.units, batch, now)
    requires JobGroup(batch, jobID, group)
    ensures Fetched(db.units, group) && OfOneJob(cfg, db, jobID, group, now)
  {
    forall u
      ensures u in group <==> u in batch && u.jobID == jobID
    {
      InKeep(batch, HasKey(JobOf(), jobID), u);
    }
    KeepDistinctIds(batch, HasKey(JobOf(), jobID));
    GroupIds(cfg, db, batch, jobID, group, now);
  }

  lemma GroupIds(cfg: Settings, db: Db, batch: seq<Unit>, jobID: string, group: seq<Unit>, now: int)
    requires Batch(cfg, db.units, batch, now) && DistinctIds(group)
    requires (forall u :: u in group <==> u in batch && u.jobID == jobID) && exists u :: u in batch && u.jobID == jobID
    ensures Fetched(db.units, group) && OfOneJob(cfg, db, jobID, group, now)
  {
    forall u | u in batch
      ensures Copied(db.units, u) && u.id in IdsOf(batch)
    {
      var k :| 0 <= k < |batch| && batch[k] == u;
      assert Copied(db.units, batch[k]);
    }
    forall i | 0 <= i < |group|
      ensures Copied(db.units, group[i])
    {
      assert group[i] in group;
    }
    forall id | id in db.units && db.units[id].jobID == jobID && Eligible(cfg, db.units[id], now)
      ensures id in IdsOf(group)
    {
      assert id in IdsOf(batch);
      var u :| u in batch && u.id == id;
      assert u in group;
    }
  }

  /** The group is still as it was fetched when its job's turn comes. */
  lemma StillFetched(cfg: Settings, nodes: map<string, Node>, db: Db, mid: Db, done: set<string>, jobID: string,
                     group: seq<Unit>, now: int)
    requires Progress(cfg, nodes, db, now)(mid, done) && jobID !in done
    requires Fetched(db.units, group) && OfOneJob(cfg, db, jobID, group, now)
    ensures Fetched(mid.units, group)
  {
    forall i | 0 <= i < |group|
      ensures Copied(mid.units, group[i])
    {
      assert Copied(db.units, group[i]) && group[i] in group && group[i].id in IdsOf(group);
      assert HalfUnit(cfg, nodes, db, db.units[group[i].id], mid.units[group[i].id], done, now);
    }
  }

  /** A job that is not visited stays as it is, and so do its units. */
  lemma HalfPasses(cfg: Settings, nodes: map<string, Node>, db: Db, mid: Db, done: set<string>, jobID: string, now: int)
    requires Progress(cfg, nodes, db, now)(mid, done) && jobID !in done
    requires jobID in db.jobs ==> !Live(db.jobs[jobID])
    ensures Progress(cfg, nodes, db, now)(mid, done + {jobID})
  {
    forall u | u in db.units
      ensures HalfUnit(cfg, nodes, db, db.units[u], mid.units[u], done + {jobID}, now)
    {
      assert HalfUnit(cfg, nodes, db, db.units[u], mid.units[u], done, now);
      if db.units[u].jobID == jobID { UnvisitedUnit(cfg, nodes, db, db.units[u], now); }
    }
    if jobID in db.jobs { UnvisitedJob(cfg, db, jobID, now); }
  }

  lemma UnvisitedUnit(cfg: Settings, nodes: map<string, Node>, db: Db, u: Unit, now: int)
    requires u.jobID in db.jobs ==> !Live(db.jobs[u.jobID])
    ensures UnitRel(cfg, nodes, db, now)(u, u)
  {
  }

  lemma UnvisitedJob(cfg: Settings, db: Db, jobID: string, now: int)
    requires jobID in db.jobs && !Live(db.jobs[jobID])
    ensures JobRel(cfg, db, now)(jobID, db.jobs[jobID])
  {
  }

  lemma HalfNext(cfg: Settings, nodes: map<string, Node>, db: Db, mid: Db, after: Db, done: set<string>, jobID: string,
                 group: seq<Unit>, now: int)
    requires Progress(cfg, nodes, db, now)(mid, done) && jobID !in done && jobID in db.jobs && Live(db.jobs[jobID])
    requires Fetched(db.units, group) && OfOneJob(cfg, db, jobID, group, now)
    requires JobScheduled(cfg, nodes, mid, after, jobID, group, now)
    ensures Progress(cfg, nodes, db, now)(after, done + {jobID})
  {
    assert Visited(cfg, db, jobID, now) by {
      assert group[0] in group && group[0].id in IdsOf(group);
    }
    ScheduledKeys(cfg, nodes, mid, after, jobID, group, now);
    NextJob(cfg, nodes, db, mid, after, done, jobID, group, now);
    NextUnits(cfg, nodes, db, mid, after, done, jobID, group, now);
  }

  lemma NextUnits(cfg: Settings, nodes: map<string, Node>, db: Db, mid: Db, after: Db, done: set<string>, jobID: string,
                  group: seq<Unit>, now: int)
    requires Half(cfg, nodes, db, mid, done, now) && jobID !in done && jobID in db.jobs && Visited(cfg, db, jobID, now)
    requires Fetched(db.units, group) && OfOneJob(cfg, db, jobID, group, now)
    requires JobScheduled(cfg, nodes, mid, after, jobID, group, now) && after.units.Keys == mid.units.Keys
    ensures HalfUnits(cfg, nodes, db, after.units, done + {jobID}, now)
  {
    forall u | u in db.units
      ensures HalfUnit(cfg, nodes, db, db.units[u], after.units[u], done + {jobID}, now)
    {
      assert HalfUnit(cfg, nodes, db, db.units[u], mid.units[u], done, now);
      if db.units[u].jobID == jobID {
        MyUnit(cfg, nodes, db, mid, after, done, jobID, group, u, now);
      } else {
        OtherUnit(cfg, nodes, db, mid, after, done, jobID, group, u, now);
      }
    }
  }

  /** Scheduling a job keeps the keys and the other jobs. */
  ghost predicate Around(mid: Db, after: Db, jobID: string) {
    && after == mid.(jobs := after.jobs, units := after.units) && after.units.Keys == mid.units.Keys
    && jobID in after.jobs && jobID in mid.jobs && after.jobs == mid.jobs[jobID := after.jobs[jobID]]
  }

  lemma AroundUnits(mid: Db, after: Db, jobID: string)
    requires jobID in mid.jobs && after == mid.(units := after.units) && after.units.Keys == mid.units.Keys
    ensures Around(mid, after, jobID)
  {
    assert after.jobs == mid.jobs[jobID := mid.jobs[jobID]];
  }

  lemma AroundWorkflow(mid: Db, after: Db, jobID: string)
    requires jobID in mid.jobs && jobID in after.jobs && after.units.Keys == mid.units.Keys
    requires after == mid.(jobs := mid.jobs[jobID := after.jobs[jobID]], units := after.units)
    ensures Around(mid, after, jobID)
  {
  }

  lemma ScheduledKeys(cfg: Settings, nodes: map<string, Node>, mid: Db, after: Db, jobID: string, group: seq<Unit>, now: int)
    requires jobID in mid.jobs && JobScheduled(cfg, nodes, mid, after, jobID, group, now)
    ensures Around(mid, after, jobID)
  {
    var job := mid.jobs[jobID];
    if job.jobType == Workflow && Topo.Sortable(job.stages) {
      assert CancelStages(mid.units, SkipIds(job.stages), now).Keys == mid.units.Keys;
      AroundWorkflow(mid, after, jobID);
    } else {
      AroundUnits(mid, after, jobID);
    }
  }

  lemma NextJob(cfg: Settings, nodes: map<string, Node>, db: Db, mid: Db, after: Db, done: set<string>, jobID: string,
                group: seq<Unit>, now: int)
    requires HalfJobs(cfg, db, mid.jobs, done, now) && jobID !in done && jobID in db.jobs && Visited(cfg, db, jobID, now)
    requires JobScheduled(cfg, nodes, mid, after, jobID, group, now) && Around(mid, after, jobID)
    ensures HalfJobs(cfg, db, after.jobs, done + {jobID}, now)
  {
    MyJob(cfg, nodes, db, mid, after, jobID, group, now);
    forall j | j in db.jobs && j != jobID
      ensures after.jobs[j] == mid.jobs[j]
    {
    }
  }

  lemma MyJob(cfg: Settings, nodes: map<string, Node>, db: Db, mid: Db, after: Db, jobID: string, group: seq<Unit>, now: int)
    requires jobID in db.jobs && jobID in mid.jobs && mid.jobs[jobID] == db.jobs[jobID] && Visited(cfg, db, jobID, now)
    requires JobScheduled(cfg, nodes, mid, after, jobID, group, now) && jobID in after.jobs
    ensures JobRel(cfg, db, now)(jobID, after.jobs[jobID])
  {
  }

  lemma InSkipIds(job: Job, id: string)
    requires id in SkipIds(job.stages) || id in ReadyIds(job.stages)
    ensures HasStage(job, id)
  {
    var s :| s in job.stages && s.id == id;
    var k :| 0 <= k < |job.stages| && job.stages[k] == s;
  }

  lemma OtherUnit(cfg: Settings, nodes: map<string, Node>, db: Db, mid: Db, after: Db, done: set<string>, jobID: string,
                  group: seq<Unit>, u: string, now: int)
    requires Half(cfg, nodes, db, mid, done, now) && jobID !in done && jobID in db.jobs
    requires OfOneJob(cfg, db, jobID, group, now) && JobScheduled(cfg, nodes, mid, after, jobID, group, now)
    requires u in db.units && db.units[u].jobID != jobID
    ensures u in after.units && after.units[u] == mid.units[u]
  {
    SameStage(cfg, nodes, db, mid, done, u, now);
    var job := db.jobs[jobID];
    assert mid.jobs[jobID] == job;
    if db.units[u].stageID in SkipIds(job.stages) {
      InSkipIds(job, db.units[u].stageID);
    }
    assert u !in IdsOf(group);
    assert u !in IdsIn(group, ReadyIds(job.stages));
  }

  lemma SameStage(cfg: Settings, nodes: map<string, Node>, db: Db, mid: Db, done: set<string>, u: string, now: int)
    requires Half(cfg, nodes, db, mid, done, now) && u in db.units
    ensures u in mid.units && mid.units[u].stageID == db.units[u].stageID
  {
    assert HalfUnit(cfg, nodes, db, db.units[u], mid.units[u], done, now);
    if db.units[u].jobID in done { CycledSame(cfg, nodes, db, db.units[u], mid.units[u], now); }
  }

  lemma MyUnit(cfg: Settings, nodes: map<string, Node>, db: Db, mid: Db, after: Db, done: set<string>, jobID: string,
               group: seq<Unit>, u: string, now: int)
    requires Half(cfg, nodes, db, mid, done, now) && jobID !in done && jobID in db.jobs && Visited(cfg, db, jobID, now)
    requires Fetched(db.units, group) && OfOneJob(cfg, db, jobID, group, now)
    requires JobScheduled(cfg, nodes, mid, after, jobID, group, now)
    requires u in db.units && db.units[u].jobID == jobID
    ensures u in after.units && UnitCycled(cfg, nodes, db, db.units[u], after.units[u], now)
  {
    var job := db.jobs[jobID];
    assert HalfUnit(cfg, nodes, db, db.units[u], mid.units[u], done, now);
    assert mid.units[u] == db.units[u] && mid.jobs[jobID] == job;
    if job.jobType == Workflow && Topo.Sortable(job.stages) {
      var stageID := db.units[u].stageID;
      if stageID in ReadyIds(job.stages) { ReadyNotSkipped(job.stages, stageID); }
      GroupStage(cfg, db, jobID, group, u, ReadyIds(job.stages), now);
    }
  }

  lemma GroupStage(cfg: Settings, db: Db, jobID: string, group: seq<Unit>, u: string, stageIDs: set<string>, now: int)
    requires Fetched(db.units, group) && OfOneJob(cfg, db, jobID, group, now) && u in db.units
    ensures u in IdsIn(group, stageIDs) <==>
      db.units[u].jobID == jobID && Eligible(cfg, db.units[u], now) && db.units[u].stageID in stageIDs
  {
    forall g | g in group
      ensures g.stageID == db.units[g.id].stageID && g.id in IdsOf(group)
    {
      var k :| 0 <= k < |group| && group[k] == g;
      assert Copied(db.units, group[k]);
    }
    if u in IdsOf(group) {
      var g :| g in group && g.id == u;
    }
  }

  lemma HalfEnds(cfg: Settings, nodes: map<string, Node>, db: Db, after: Db, batch: seq<Unit>, done: set<string>, now: int)
    requires Progress(cfg, nodes, db, now)(after, done) && Batch(cfg, db.units, batch, now)
    requires done == JobIds(batch)
    ensures Cycled(cfg, nodes, db, after, now)
  {
    forall id | id in db.units && Eligible(cfg, db.units[id], now)
      ensures db.units[id].jobID in done
    {
      assert id in IdsOf(batch);
      var k :| 0 <= k < |batch| && batch[k].id == id;
      assert Copied(db.units, batch[k]) && batch[k] in batch && JobOf()(batch[k]) == db.units[id].jobID;
    }
    forall u | u in db.units
      ensures UnitCycled(cfg, nodes, db, db.units[u], after.units[u], now)
    {
      assert HalfUnit(cfg, nodes, db, db.units[u], after.units[u], done, now);
    }
  }

  lemma NothingConsidered(cfg: Settings, nodes: map<string, Node>, db: Db, now: int)
    requires Batch(cfg, db.units, [], now)
    ensures Cycled(cfg, nodes, db, db, now)
  {
    forall id | id in db.units
      ensures !Eligible(cfg, db.units[id], now)
    {
      assert id !in IdsOf([]);
    }
  }

  // ---------- a pull ----------

  /** The best of the units looked at so far, all of them waiting. */
  ghost predicate BestSoFar(cfg: Settings, nodes: map<string, Node>, db: Db, nodeID: string, seen: seq<Unit>,
                            best: Option<Unit>, bestScore: real)
    requires nodeID in nodes
  {
    && (forall u :: u in seen && Pullable(cfg, nodes, db, nodeID, u) ==> PullScore(cfg, nodes, db, nodeID, u) <= bestScore)
    && match best
       case None => bestScore == -1.0
       case Some(b) => b in seen && Pullable(cfg, nodes, db, nodeID, b) && PullScore(cfg, nodes, db, nodeID, b) == bestScore
  }

  lemma PullEnds(cfg: Settings, nodes: map<string, Node>, db: Db, nodeID: string, pending: seq<Unit>, best: Option<Unit>,
                 bestScore: real)
    requires nodeID in nodes && Keyed(db) && Listed(db.units, IsPending(), pending)
    requires BestSoFar(cfg, nodes, db, nodeID, pending, best, bestScore)
    ensures best.None? ==> forall u :: u in db.units ==> !Pullable(cfg, nodes, db, nodeID, db.units[u])
    ensures best.Some? ==>
      && best.value.id in db.units && db.units[best.value.id] == best.value && Pullable(cfg, nodes, db, nodeID, best.value)
      && forall u :: u in db.units && Pullable(cfg, nodes, db, nodeID, db.units[u]) ==>
           PullScore(cfg, nodes, db, nodeID, db.units[u]) <= PullScore(cfg, nodes, db, nodeID, best.value)
  {
    forall u | u in db.units && Pullable(cfg, nodes, db, nodeID, db.units[u])
      ensures PullScore(cfg, nodes, db, nodeID, db.units[u]) <= bestScore
    {
      assert db.units[u] in pending;
    }
  }
}
