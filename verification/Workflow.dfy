/** Whole runs of the scheduler: jobs are submitted and cancelled, nodes report, pull, come
    and go, and scheduling cycles run, each handler as one atomic step. */
module WorkflowRuns {
  import opened Cascade
  import opened Cycle
  import opened Graph
  import opened Handlers
  import opened Model
  import opened Propagation
  import opened StoreView
  import Engine
  import Runs
  import Topo

  /** The store and the registry. */
  datatype World = World(db: Db, nodes: map<string, Node>)

  datatype Step =
    | Submit(job: Job, split: Stage -> Option<nat>)
    | SubmitRejected(job: Job, split: Stage -> Option<nat>)
    | Report(unitID: string, status: UnitStatus, exitCode: int, errorMessage: string, now: int)
    | Cycle(cfg: Settings, message: string, now: int)
    | Pull(cfg: Settings, nodeID: string, given: Option<Unit>)
    | Cancel(jobID: string, now: int)
    | Unregister(nodeID: string, now: int)
    | Elsewhere

  // ---------- what a step may do ----------

  /** Generated identifiers are new. */
  ghost predicate FreshIds(db: Db, job: Job) {
    && job.id !in db.jobs && UniqueIds(job.stages)
    && (forall j :: j in db.jobs ==> Apart(db.jobs[j].stages, job.stages))
    && (forall u, s :: u in db.units && s in job.stages ==> db.units[u].stageID != s.id)
  }

  /** The retry limit is fixed; trust and scores may be others in every cycle and pull. */
  ghost predicate Next(maxRetries: nat, w: World, step: Step, w': World) {
    match step
    case Submit(job, split) =>
      w'.nodes == w.nodes && FreshIds(w.db, job) && job.status == JobPending && SubmitDone(w.db, w'.db, job, split)
    case SubmitRejected(job, split) => w'.nodes == w.nodes && FreshIds(w.db, job) && SubmitFailed(w.db, w'.db, job, split)
    case Report(unitID, status, exitCode, errorMessage, now) =>
      w'.nodes == w.nodes && ReportDone(w.db, w'.db, maxRetries, unitID, status, exitCode, errorMessage, now)
    case Cycle(cfg, message, now) =>
      w'.nodes == w.nodes && cfg.maxRetries == maxRetries && CycleDone(cfg, w.nodes, w.db, w'.db, message, now)
    case Pull(cfg, nodeID, given) =>
      w'.nodes == w.nodes && cfg.maxRetries == maxRetries && PullDone(cfg, w.nodes, w.db, w'.db, nodeID, given)
    case Cancel(jobID, now) => w'.nodes == w.nodes && CancelDone(w.db, w'.db, jobID, now)
    case Unregister(nodeID, now) => w'.nodes == w.nodes - {nodeID} && UnregisterDone(w.db, w'.db, nodeID, now)
    // Registrations, heartbeats, failure detection, trust, addresses and invite codes.
    case Elsewhere => w'.db.jobs == w.db.jobs && w'.db.units == w.db.units
  }

  /** Agents report only units they hold, and no status the propagation overlooks; no stage
      is submitted as already completed. */
  ghost predicate WellBehaved(w: World, step: Step) {
    match step
    case Submit(job, _) => forall s :: s in job.stages ==> s.status != StageCompleted
    case Report(unitID, status, _, _, _) =>
      unitID in w.db.units ==> Active(w.db.units[unitID].status) && status != Retrying && status != Unspecified
    case _ => true
  }

  // ---------- identities ----------

  ghost predicate NamedUnit(id: string, u: Unit) {
    exists i: nat :: id == UnitID(u.stageID, i)
  }

  /** Records have their own identifiers, and stages and units belong to one job. */
  ghost predicate WellFormed(db: Db) {
    && Keyed(db) && StagesApart(db.jobs) && Linked(db)
    && forall u :: u in db.units ==> NamedUnit(u, db.units[u])
  }

  ghost predicate SameShape(a: seq<Stage>, b: seq<Stage>) {
    |a| == |b| && forall k :: 0 <= k < |a| ==> a[k].id == b[k].id && a[k].name == b[k].name && a[k].dependsOn == b[k].dependsOn
  }

  ghost predicate SameJob(a: Job, b: Job) {
    a.id == b.id && a.jobType == b.jobType && SameShape(a.stages, b.stages)
  }

  ghost predicate SameUnit(a: Unit, b: Unit) {
    a.id == b.id && a.jobID == b.jobID && a.stageID == b.stageID
  }

  /** Nothing is lost, and every record keeps its identity and its place in the graph. */
  ghost predicate Shaped(before: Db, after: Db) {
    && (forall j :: j in before.jobs ==> j in after.jobs && SameJob(before.jobs[j], after.jobs[j]))
    && (forall u :: u in before.units ==> u in after.units && SameUnit(before.units[u], after.units[u]))
  }

  ghost predicate NothingNew(before: Db, after: Db) {
    after.jobs.Keys == before.jobs.Keys && after.units.Keys == before.units.Keys
  }

  lemma WellFormedKept(before: Db, after: Db)
    requires WellFormed(before) && Shaped(before, after) && NothingNew(before, after)
    ensures WellFormed(after)
  {
    forall a, b | a in after.jobs && b in after.jobs && a != b
      ensures Apart(after.jobs[a].stages, after.jobs[b].stages)
    {
      assert SameJob(before.jobs[a], after.jobs[a]) && SameJob(before.jobs[b], after.jobs[b]);
      SameIdsApart(before.jobs[a].stages, before.jobs[b].stages, after.jobs[a].stages, after.jobs[b].stages);
    }
    forall a | a in after.jobs
      ensures UniqueIds(after.jobs[a].stages) && after.jobs[a].id == a
    {
      assert SameJob(before.jobs[a], after.jobs[a]) && UniqueIds(before.jobs[a].stages);
    }
    forall u | u in after.units
      ensures after.units[u].id == u && NamedUnit(u, after.units[u])
    {
      assert SameUnit(before.units[u], after.units[u]) && NamedUnit(u, before.units[u]);
    }
    forall u, j | u in after.units && j in after.jobs && HasStage(after.jobs[j], after.units[u].stageID)
      ensures after.units[u].jobID == j
    {
      assert SameUnit(before.units[u], after.units[u]) && SameJob(before.jobs[j], after.jobs[j]);
      SameStages(before.jobs[j], after.jobs[j], before.units[u].stageID);
    }
  }

  lemma SameStages(a: Job, b: Job, id: string)
    requires SameJob(a, b) && HasStage(b, id)
    ensures HasStage(a, id)
  {
    var k :| 0 <= k < |b.stages| && b.stages[k].id == id;
    assert a.stages[k].id == id;
  }

  // ---------- the order invariant ----------

  /** A unit that a node holds or has finished. */
  predicate Begun(s: UnitStatus) {
    Active(s) || s == UnitStatus.Completed
  }

  ghost predicate NoStrays(units: map<string, Unit>) {
    forall u :: u in units ==> units[u].status != Retrying && units[u].status != Unspecified
  }

  /** The stage's dependencies are completed, when the job is a workflow. */
  ghost predicate Unlocked(j: Job, stageID: string) {
    j.jobType == Workflow ==>
      forall k :: 0 <= k < |j.stages| && j.stages[k].id == stageID ==> DepsMet(j.stages, j.stages[k].dependsOn)
  }

  ghost predicate StageInOrder(db: Db, j: Job, k: nat)
    requires k < |j.stages|
  {
    j.stages[k].status == StageCompleted ==> AllUnits(db.units, j.stages[k].id, IsCompleted) && Unlocked(j, j.stages[k].id)
  }

  ghost predicate UnitInOrder(db: Db, u: Unit) {
    Begun(u.status) && u.jobID in db.jobs ==> Unlocked(db.jobs[u.jobID], u.stageID)
  }

  /** A completed stage has only completed units and completed dependencies, and so have the
      stages of the units that have begun. */
  ghost predicate InOrder(db: Db) {
    && NoStrays(db.units)
    && (forall j, k :: j in db.jobs && 0 <= k < |db.jobs[j].stages| ==> StageInOrder(db, db.jobs[j], k))
    && (forall u :: u in db.units ==> UnitInOrder(db, db.units[u]))
  }

  // ---------- moves that keep it ----------

  /** Completed stages stay completed. */
  ghost predicate StagesKept(a: seq<Stage>, b: seq<Stage>) {
    SameShape(a, b) && forall k :: 0 <= k < |a| && a[k].status == StageCompleted ==> b[k].status == StageCompleted
  }

  /** A stage completes only when all its units have, and it has units. */
  ghost predicate StageMove(before: map<string, Unit>, after: map<string, Unit>, a: Stage, b: Stage) {
    b.status == StageCompleted && a.status != StageCompleted ==>
      AllUnits(after, b.id, IsCompleted) && SomeUnit(before, b.id, Begun)
  }

  /** A unit begins only in an unlocked stage, and completed units stay so. */
  ghost predicate UnitMove(before: Db, a: Unit, b: Unit) {
    && b.status != Retrying && b.status != Unspecified
    && (a.status == UnitStatus.Completed ==> b.status == UnitStatus.Completed)
    && (Begun(b.status) && !Begun(a.status) && a.jobID in before.jobs ==> Unlocked(before.jobs[a.jobID], a.stageID))
  }

  ghost predicate JobMove(before: map<string, Unit>, after: map<string, Unit>, a: Job, b: Job) {
    && SameJob(a, b) && StagesKept(a.stages, b.stages)
    && forall k :: 0 <= k < |a.stages| ==> StageMove(before, after, a.stages[k], b.stages[k])
  }

  ghost predicate Moves(before: Db, after: Db) {
    && NothingNew(before, after)
    && (forall j :: j in before.jobs ==> JobMove(before.units, after.units, before.jobs[j], after.jobs[j]))
    && (forall u :: u in before.units ==> SameUnit(before.units[u], after.units[u]) && UnitMove(before, before.units[u], after.units[u]))
  }

  lemma MovesAreShaped(before: Db, after: Db)
    requires Moves(before, after)
    ensures Shaped(before, after)
  {
    forall j | j in before.jobs
      ensures SameJob(before.jobs[j], after.jobs[j])
    {
      assert JobMove(before.units, after.units, before.jobs[j], after.jobs[j]);
    }
  }

  lemma JobStays(before: map<string, Unit>, after: map<string, Unit>, a: Job)
    ensures JobMove(before, after, a, a)
  {
  }

  lemma {:induction false} DepKept(a: seq<Stage>, b: seq<Stage>, dep: string)
    requires StagesKept(a, b) && DepCompleted(a, dep)
    ensures DepCompleted(b, dep)
    decreases |a|
  {
    if a != [] && a[0].name != dep {
      DepKept(a[1..], b[1..], dep);
    }
  }

  lemma UnlockedKept(a: Job, b: Job, stageID: string)
    requires SameJob(a, b) && StagesKept(a.stages, b.stages) && Unlocked(a, stageID)
    ensures Unlocked(b, stageID)
  {
    if b.jobType == Workflow {
      forall k, d | 0 <= k < |b.stages| && b.stages[k].id == stageID && d in b.stages[k].dependsOn
        ensures DepCompleted(b.stages, d)
      {
        assert a.stages[k].id == stageID && DepsMet(a.stages, a.stages[k].dependsOn) && DepCompleted(a.stages, d);
        DepKept(a.stages, b.stages, d);
      }
    }
  }

  /** Such moves keep the invariant. */
  lemma MovesKeepOrder(before: Db, after: Db)
    requires WellFormed(before) && InOrder(before) && Moves(before, after)
    ensures WellFormed(after) && InOrder(after)
  {
    MovesAreShaped(before, after);
    WellFormedKept(before, after);
    forall j, k | j in after.jobs && 0 <= k < |after.jobs[j].stages|
      ensures StageInOrder(after, after.jobs[j], k)
    {
      StageStaysInOrder(before, after, j, k);
    }
    forall u | u in after.units
      ensures UnitInOrder(after, after.units[u]) && after.units[u].status != Retrying && after.units[u].status != Unspecified
    {
      UnitStaysInOrder(before, after, u);
    }
  }

  lemma UnitStaysInOrder(before: Db, after: Db, u: string)
    requires InOrder(before) && Moves(before, after) && u in before.units
    ensures UnitInOrder(after, after.units[u])
  {
    var a, b := before.units[u], after.units[u];
    assert SameUnit(a, b) && UnitMove(before, a, b) && UnitInOrder(before, a);
    if Begun(b.status) && b.jobID in after.jobs {
      assert JobMove(before.units, after.units, before.jobs[a.jobID], after.jobs[a.jobID]);
      UnlockedKept(before.jobs[a.jobID], after.jobs[a.jobID], a.stageID);
    }
  }

  lemma StageStaysInOrder(before: Db, after: Db, j: string, k: nat)
    requires WellFormed(before) && InOrder(before) && Moves(before, after) && j in before.jobs && j in after.jobs
    requires k < |after.jobs[j].stages|
    ensures StageInOrder(after, after.jobs[j], k)
  {
    assert JobMove(before.units, after.units, before.jobs[j], after.jobs[j]);
    var a, b := before.jobs[j].stages[k], after.jobs[j].stages[k];
    assert StageMove(before.units, after.units, a, b) && StageInOrder(before, before.jobs[j], k);
    if b.status == StageCompleted {
      if a.status == StageCompleted {
        CompletedUnitsStay(before, after, a.id);
      } else {
        var u :| u in before.units && before.units[u].stageID == a.id && Begun(before.units[u].status);
        assert HasStage(before.jobs[j], a.id) && UnitInOrder(before, before.units[u]);
      }
      UnlockedKept(before.jobs[j], after.jobs[j], a.id);
    }
  }

  lemma CompletedUnitsStay(before: Db, after: Db, stageID: string)
    requires Moves(before, after) && AllUnits(before.units, stageID, IsCompleted)
    ensures AllUnits(after.units, stageID, IsCompleted)
  {
    forall u | u in after.units && after.units[u].stageID == stageID
      ensures IsCompleted(after.units[u].status)
    {
      assert u in before.units && SameUnit(before.units[u], after.units[u]) && UnitMove(before, before.units[u], after.units[u]);
    }
  }

  // ---------- the steps ----------

  lemma OnlyUnitsMove(before: Db, after: Db)
    requires after.jobs == before.jobs && after.units.Keys == before.units.Keys
    requires forall u :: u in before.units ==> SameUnit(before.units[u], after.units[u]) && UnitMove(before, before.units[u], after.units[u])
    ensures Moves(before, after)
  {
    forall j | j in before.jobs
      ensures JobMove(before.units, after.units, before.jobs[j], after.jobs[j])
    {
      JobStays(before.units, after.units, before.jobs[j]);
    }
  }

  /** Failing or cancelling units that are waiting or active. */
  lemma RewritingMoves(before: Db, after: Db, select: Unit -> bool, test: Unit -> bool, status: UnitStatus, message: string, now: int)
    requires InOrder(before) && (status == UnitStatus.Failed || status == Cancelled)
    requires forall u :: test(u) ==> u.status != UnitStatus.Completed
    requires after.jobs == before.jobs && after.units == Rewritten(before.units, select, test, Becomes(status, message, now))
    ensures Moves(before, after)
  {
    forall u | u in before.units
      ensures SameUnit(before.units[u], after.units[u]) && UnitMove(before, before.units[u], after.units[u])
    {
    }
    OnlyUnitsMove(before, after);
  }

  lemma RewritingSelectedMoves(before: Db, after: Db, select: Unit -> bool, test: Unit -> bool, status: UnitStatus, message: string, now: int)
    requires InOrder(before) && (status == UnitStatus.Failed || status == Cancelled)
    requires forall u :: select(u) ==> u.status != UnitStatus.Completed
    requires after.jobs == before.jobs && after.units == Rewritten(before.units, select, test, Becomes(status, message, now))
    ensures Moves(before, after)
  {
    forall u | u in before.units
      ensures SameUnit(before.units[u], after.units[u]) && UnitMove(before, before.units[u], after.units[u])
    {
    }
    OnlyUnitsMove(before, after);
  }

  /** One unit that has begun gets another status. */
  lemma OneUnitMoves(before: Db, after: Db, unitID: string, u: Unit)
    requires InOrder(before) && unitID in before.units && after.jobs == before.jobs && after.units == before.units[unitID := u]
    requires SameUnit(before.units[unitID], u) && UnitMove(before, before.units[unitID], u)
    ensures Moves(before, after)
  {
    OnlyUnitsMove(before, after);
  }

  /** Of the stages only the judged one can have become completed. */
  ghost predicate JudgedAt(stages: seq<Stage>, later: seq<Stage>, i: nat, completed: bool)
    requires i < |stages|
  {
    && SameShape(stages, later)
    && forall k :: 0 <= k < |stages| ==>
         (later[k].status == StageCompleted <==> if k == i then completed else stages[k].status == StageCompleted)
  }

  lemma OutcomeShape(units: map<string, Unit>, stages: seq<Stage>, i: nat)
    requires UniqueIds(stages) && i < |stages|
    ensures JudgedAt(stages, Outcome(units, stages, stages[i].id).0, i, StageVerdict(units, stages[i].id) == StageCompleted)
    ensures StageVerdict(units, stages[i].id) == StageCompleted ==> Outcome(units, stages, stages[i].id).1 == {}
  {
    SetAt(stages, i, StageVerdict(units, stages[i].id));
  }

  lemma CancellingMoves(before: Db, ids: set<string>, now: int, u: string)
    requires InOrder(before) && u in before.units
    ensures SameUnit(before.units[u], CancelIn(before.units[u], ids, now)) && UnitMove(before, before.units[u], CancelIn(before.units[u], ids, now))
  {
  }

  /** A completed verdict on the stage of `u` means that all its units have completed. */
  lemma VerdictCompletes(db: Db, jobID: string, i: nat, u: string)
    requires InOrder(db) && jobID in db.jobs && i < |db.jobs[jobID].stages| && u in db.units
    requires db.jobs[jobID].stages[i].id == db.units[u].stageID
    ensures StageVerdict(db.units, db.units[u].stageID) == StageCompleted ==>
      AllUnits(db.units, db.units[u].stageID, IsCompleted) && SomeUnit(db.units, db.units[u].stageID, Begun)
    ensures db.jobs[jobID].stages[i].status == StageCompleted ==> StageVerdict(db.units, db.units[u].stageID) == StageCompleted
  {
    var stageID := db.units[u].stageID;
    CompletedExactly(db.units, stageID);
    assert StageInOrder(db, db.jobs[jobID], i);
    if StageVerdict(db.units, stageID) == StageCompleted {
      forall v | v in db.units && db.units[v].stageID == stageID
        ensures IsCompleted(db.units[v].status)
      {
        assert CountsAsDone(db.units[v].status);
      }
    }
  }

  lemma PropagationMoves(before: Db, after: Db, u: string, now: int)
    requires WellFormed(before) && InOrder(before) && u in before.units
    requires Propagated(before, after, before.units[u].jobID, before.units[u].stageID, now)
    ensures Moves(before, after)
  {
    var jobID, stageID := before.units[u].jobID, before.units[u].stageID;
    if jobID !in before.jobs {
      StillMoves(before);
    } else if i :| 0 <= i < |before.jobs[jobID].stages| && before.jobs[jobID].stages[i].id == stageID {
      VerdictMoves(before, after, jobID, i, u, now);
    } else {
      CancelNothing(before.units, now);
      UntouchedMoves(before, after, jobID);
    }
  }

  lemma StillMoves(db: Db)
    requires InOrder(db)
    ensures Moves(db, db)
  {
    OnlyUnitsMove(db, db);
  }

  ghost predicate OneJob(before: Db, after: Db, jobID: string) {
    && jobID in before.jobs && jobID in after.jobs && after.jobs == before.jobs[jobID := after.jobs[jobID]]
    && SameJob(before.jobs[jobID], after.jobs[jobID])
  }

  lemma OneJobMoves(before: Db, after: Db, jobID: string)
    requires OneJob(before, after, jobID) && JobMove(before.units, after.units, before.jobs[jobID], after.jobs[jobID])
    requires after.units.Keys == before.units.Keys
    requires forall u :: u in before.units ==> SameUnit(before.units[u], after.units[u]) && UnitMove(before, before.units[u], after.units[u])
    ensures Moves(before, after)
  {
    forall j | j in before.jobs
      ensures JobMove(before.units, after.units, before.jobs[j], after.jobs[j])
    {
      if j != jobID { JobStays(before.units, after.units, before.jobs[j]); }
    }
  }

  lemma UntouchedMoves(before: Db, after: Db, jobID: string)
    requires InOrder(before) && OneJob(before, after, jobID) && after.jobs[jobID].stages == before.jobs[jobID].stages
    requires after.units == before.units
    ensures Moves(before, after)
  {
    OneJobMoves(before, after, jobID);
  }

  lemma VerdictMoves(before: Db, after: Db, jobID: string, i: nat, u: string, now: int)
    requires WellFormed(before) && InOrder(before) && u in before.units
    requires jobID == before.units[u].jobID && jobID in before.jobs && i < |before.jobs[jobID].stages|
    requires before.jobs[jobID].stages[i].id == before.units[u].stageID
    requires Propagated(before, after, jobID, before.units[u].stageID, now)
    ensures Moves(before, after)
  {
    var outcome := Outcome(before.units, before.jobs[jobID].stages, before.units[u].stageID);
    VerdictOutcome(before, jobID, i, u, after.jobs[jobID], now);
    CancellationMoves(before, outcome.1, now);
    OneJobMoves(before, after, jobID);
  }

  lemma VerdictOutcome(db: Db, jobID: string, i: nat, u: string, b: Job, now: int)
    requires WellFormed(db) && InOrder(db) && u in db.units && jobID in db.jobs && i < |db.jobs[jobID].stages|
    requires db.jobs[jobID].stages[i].id == db.units[u].stageID
    requires b.id == db.jobs[jobID].id && b.jobType == db.jobs[jobID].jobType
    requires b.stages == Outcome(db.units, db.jobs[jobID].stages, db.units[u].stageID).0
    ensures SameJob(db.jobs[jobID], b)
    ensures JobMove(db.units, CancelStages(db.units, Outcome(db.units, db.jobs[jobID].stages, db.units[u].stageID).1, now), db.jobs[jobID], b)
  {
    var stages := db.jobs[jobID].stages;
    assert UniqueIds(stages);
    OutcomeShape(db.units, stages, i);
    VerdictCompletes(db, jobID, i, u);
    CancelNothing(db.units, now);
  }

  lemma CancellationMoves(before: Db, ids: set<string>, now: int)
    requires InOrder(before)
    ensures forall v :: v in before.units ==>
      && SameUnit(before.units[v], CancelStages(before.units, ids, now)[v])
      && UnitMove(before, before.units[v], CancelStages(before.units, ids, now)[v])
  {
    forall v | v in before.units
      ensures SameUnit(before.units[v], CancelStages(before.units, ids, now)[v])
      ensures UnitMove(before, before.units[v], CancelStages(before.units, ids, now)[v])
    {
      CancellingMoves(before, ids, now, v);
    }
  }


  // ---------- every kind of step keeps the order ----------

  ghost predicate Sound(db: Db) {
    WellFormed(db) && InOrder(db)
  }

  lemma ReportKeeps(before: Db, after: Db, maxRetries: nat, unitID: string, status: UnitStatus, exitCode: int,
                    errorMessage: string, now: int)
    requires Sound(before) && ReportDone(before, after, maxRetries, unitID, status, exitCode, errorMessage, now)
    requires unitID in before.units ==> Active(before.units[unitID].status) && status != Retrying && status != Unspecified
    ensures Sound(after)
  {
    if unitID != "" && unitID in before.units {
      var u := UnitWith(before.units[unitID], status, exitCode, errorMessage, now);
      var mid := OneUnitKeeps(before, unitID, u);
      var retried := OneUnitKeeps(before, unitID, Retried(u));
      if status == before.units[unitID].status {
        assert after == mid;
      } else if status == UnitStatus.Failed && u.retryCount < maxRetries {
        assert after == retried;
      } else {
        PropagationKeeps(mid, after, unitID, u, now);
      }
    }
  }

  lemma OneUnitKeeps(before: Db, unitID: string, u: Unit) returns (after: Db)
    requires Sound(before) && unitID in before.units
    requires SameUnit(before.units[unitID], u) && UnitMove(before, before.units[unitID], u)
    ensures after == before.(units := before.units[unitID := u]) && Sound(after)
  {
    after := before.(units := before.units[unitID := u]);
    OneUnitMoves(before, after, unitID, u);
    MovesKeepOrder(before, after);
  }

  lemma PropagationKeeps(before: Db, after: Db, u: string, unit: Unit, now: int)
    requires Sound(before) && u in before.units && before.units[u] == unit
    requires Propagated(before, after, unit.jobID, unit.stageID, now)
    ensures Sound(after)
  {
    PropagationMoves(before, after, u, now);
    MovesKeepOrder(before, after);
  }

  lemma ReadyIsUnlocked(j: Job, stageID: string)
    requires UniqueIds(j.stages) && stageID in ReadyIds(j.stages)
    ensures Unlocked(j, stageID)
  {
    var s :| s in j.stages && ReadyToPush(j.stages, s) && s.id == stageID;
    var m :| 0 <= m < |j.stages| && j.stages[m] == s;
  }

  lemma CycledUnitMoves(cfg: Settings, nodes: map<string, Node>, db: Db, a: Unit, b: Unit, now: int)
    requires WellFormed(db) && a.status != Retrying && a.status != Unspecified && UnitCycled(cfg, nodes, db, a, b, now)
    ensures SameUnit(a, b) && UnitMove(db, a, b)
  {
    if Visited(cfg, db, a.jobID, now) {
      var job := db.jobs[a.jobID];
      assert UniqueIds(job.stages);
      if a.stageID in ReadyIds(job.stages) { ReadyIsUnlocked(job, a.stageID); }
    }
  }

  lemma CycledJobMoves(cfg: Settings, db: Db, after: map<string, Unit>, j: string, b: Job, now: int)
    requires j in db.jobs && JobCycled(cfg, db, j, b, now)
    ensures JobMove(db.units, after, db.jobs[j], b)
  {
  }

  lemma CycledMoves(cfg: Settings, nodes: map<string, Node>, db: Db, after: Db, now: int)
    requires Sound(db) && Cycled(cfg, nodes, db, after, now)
    ensures Moves(db, after)
  {
    forall j | j in db.jobs
      ensures JobMove(db.units, after.units, db.jobs[j], after.jobs[j])
    {
      CycledJobMoves(cfg, db, after.units, j, after.jobs[j], now);
    }
    forall u | u in db.units
      ensures SameUnit(db.units[u], after.units[u]) && UnitMove(db, db.units[u], after.units[u])
    {
      CycledUnitMoves(cfg, nodes, db, db.units[u], after.units[u], now);
    }
  }

  lemma CycleKeeps(cfg: Settings, nodes: map<string, Node>, before: Db, after: Db, message: string, now: int)
    requires Sound(before) && CycleDone(cfg, nodes, before, after, message, now)
    ensures Sound(after)
  {
    var mid := before.(units := Reclaimed(before.units, nodes, message, now));
    RewritingSelectedMoves(before, mid, IsActive(), IsStranded(nodes), UnitStatus.Failed, message, now);
    MovesKeepOrder(before, mid);
    CycledMoves(cfg, nodes, mid, after, now);
    MovesKeepOrder(mid, after);
  }

  lemma PullKeeps(cfg: Settings, nodes: map<string, Node>, before: Db, after: Db, nodeID: string, given: Option<Unit>)
    requires Sound(before) && PullDone(cfg, nodes, before, after, nodeID, given)
    ensures Sound(after)
  {
    if given.Some? {
      var u := before.units[given.value.id];
      var job := before.jobs[u.jobID];
      if job.jobType == Workflow { PullIsUnlocked(job, u.stageID); }
      OneUnitMoves(before, after, given.value.id, given.value);
      MovesKeepOrder(before, after);
    }
  }

  lemma PullIsUnlocked(j: Job, stageID: string)
    requires UniqueIds(j.stages) && ReadyToPull(j.stages, stageID)
    ensures Unlocked(j, stageID)
  {
    var k :| 0 <= k < |j.stages| && j.stages[k].id == stageID && DepsMet(j.stages, j.stages[k].dependsOn);
    forall m | 0 <= m < |j.stages| && j.stages[m].id == stageID
      ensures m == k
    {
    }
  }

  lemma CancelKeeps(before: Db, after: Db, jobID: string, now: int)
    requires Sound(before) && CancelDone(before, after, jobID, now)
    ensures Sound(after)
  {
    if jobID in before.jobs {
      var mid := before.(units := after.units);
      RewritingMoves(before, mid, OfJob(jobID), IsCancellable(), Cancelled, JOB_CANCELLED, now);
      MovesKeepOrder(before, mid);
      forall u | u in mid.units
        ensures SameUnit(mid.units[u], after.units[u]) && UnitMove(mid, mid.units[u], after.units[u])
      {
      }
      OneJobMoves(mid, after, jobID);
      MovesKeepOrder(mid, after);
    }
  }

  lemma UnregisterKeeps(before: Db, after: Db, nodeID: string, now: int)
    requires Sound(before) && UnregisterDone(before, after, nodeID, now)
    ensures Sound(after)
  {
    RewritingMoves(before, after, OnNode(nodeID), IsActive(), UnitStatus.Failed, NODE_UNREGISTERED, now);
    MovesKeepOrder(before, after);
  }

  // ---------- submission ----------

  /** Old units are untouched, and the others are new units of these stages. */
  ghost predicate Added(before: map<string, Unit>, after: map<string, Unit>, stages: seq<Stage>, jobID: string) {
    && (forall u :: u in before ==> u in after && after[u] == before[u])
    && (forall u :: u in after && u !in before ==> FreshUnit(stages, jobID, u, after[u]))
  }

  lemma UnitsAreAdded(db: Db, stages: seq<Stage>, jobID: string, split: Stage -> Option<nat>)
    requires WellFormed(db) && forall s :: s in stages ==> split(s).Some?
    requires forall u, s :: u in db.units && s in stages ==> db.units[u].stageID != s.id
    ensures Added(db.units, db.units + UnitsOf(stages, jobID, split), stages, jobID)
  {
    var more := UnitsOf(stages, jobID, split);
    forall u | u in more
      ensures u !in db.units && FreshUnit(stages, jobID, u, more[u])
    {
      InUnitsOf(stages, jobID, split, u);
      var s, i: nat :| s in stages && u == UnitID(s.id, i) && more[u] == NewUnit(s.id, jobID, i);
      if u in db.units {
        assert NamedUnit(u, db.units[u]);
        var j: nat :| u == UnitID(db.units[u].stageID, j);
        UnitIDsDiffer(s.id, i, db.units[u].stageID, j);
      }
    }
  }

  lemma FreshUnitIs(stages: seq<Stage>, jobID: string, id: string, u: Unit)
    requires FreshUnit(stages, jobID, id, u)
    ensures u.id == id && u.jobID == jobID && u.status == Pending && NamedUnit(id, u) && u.retryCount == 0 && u.assignedNode == ""
    ensures exists s :: s in stages && s.id == u.stageID
  {
  }

  lemma RejectedKeeps(before: Db, after: Db, job: Job, split: Stage -> Option<nat>)
    requires Sound(before) && FreshIds(before, job) && SubmitFailed(before, after, job, split)
    ensures Sound(after)
  {
    var k :| 0 <= k < |job.stages| && split(job.stages[k]).None?
      && (forall s :: s in job.stages[..k] ==> split(s).Some?)
      && after == before.(units := before.units + UnitsOf(job.stages[..k], job.id, split));
    assert forall s :: s in job.stages[..k] ==> s in job.stages;
    UnitsAreAdded(before, job.stages[..k], job.id, split);
    AddingWellFormed(before, after, job.stages[..k], job.id);
    AddingInOrder(before, after, job.stages[..k], job.id);
  }

  /** New units of jobs and stages that are not stored yet. */
  ghost predicate Adding(before: Db, after: Db, stages: seq<Stage>, jobID: string) {
    && after == before.(units := after.units) && Added(before.units, after.units, stages, jobID)
    && jobID !in before.jobs && forall j :: j in before.jobs ==> Apart(before.jobs[j].stages, stages)
  }

  lemma AddedUnitIs(before: Db, after: Db, stages: seq<Stage>, jobID: string, u: string)
    requires Adding(before, after, stages, jobID) && u in after.units && u !in before.units
    ensures after.units[u].id == u && NamedUnit(u, after.units[u]) && after.units[u].status == Pending
    ensures forall j :: j in after.jobs ==> !HasStage(after.jobs[j], after.units[u].stageID)
  {
    FreshUnitIs(stages, jobID, u, after.units[u]);
    NewStageElsewhere(before.jobs, stages, after.units[u].stageID);
  }

  lemma AddingWellFormed(before: Db, after: Db, stages: seq<Stage>, jobID: string)
    requires WellFormed(before) && Adding(before, after, stages, jobID)
    ensures WellFormed(after)
  {
    forall u | u in after.units
      ensures after.units[u].id == u && NamedUnit(u, after.units[u])
    {
      if u !in before.units { AddedUnitIs(before, after, stages, jobID, u); }
    }
    forall u, j | u in after.units && j in after.jobs && HasStage(after.jobs[j], after.units[u].stageID)
      ensures after.units[u].jobID == j
    {
      if u !in before.units { AddedUnitIs(before, after, stages, jobID, u); }
    }
  }

  lemma AddingInOrder(before: Db, after: Db, stages: seq<Stage>, jobID: string)
    requires InOrder(before) && Adding(before, after, stages, jobID)
    ensures InOrder(after)
  {
    forall j, k | j in after.jobs && 0 <= k < |after.jobs[j].stages|
      ensures StageInOrder(after, after.jobs[j], k)
    {
      assert StageInOrder(before, before.jobs[j], k);
      NoNewUnits(before, after, stages, jobID, j, k);
    }
    forall u | u in after.units
      ensures UnitInOrder(after, after.units[u]) && after.units[u].status != Retrying && after.units[u].status != Unspecified
    {
      if u in before.units {
        assert UnitInOrder(before, before.units[u]);
      } else {
        AddedUnitIs(before, after, stages, jobID, u);
      }
    }
  }

  lemma NewStageElsewhere(jobs: map<string, Job>, stages: seq<Stage>, stageID: string)
    requires forall j :: j in jobs ==> Apart(jobs[j].stages, stages)
    requires exists s :: s in stages && s.id == stageID
    ensures forall j :: j in jobs ==> !HasStage(jobs[j], stageID)
  {
    forall j | j in jobs
      ensures !HasStage(jobs[j], stageID)
    {
      var s :| s in stages && s.id == stageID;
      assert Apart(jobs[j].stages, stages);
      assert forall i :: 0 <= i < |jobs[j].stages| ==> jobs[j].stages[i] in jobs[j].stages;
    }
  }

  /** An old stage gets no new units. */
  lemma NoNewUnits(before: Db, after: Db, stages: seq<Stage>, jobID: string, j: string, k: nat)
    requires Added(before.units, after.units, stages, jobID) && j in before.jobs && k < |before.jobs[j].stages|
    requires Apart(before.jobs[j].stages, stages)
    ensures AllUnits(before.units, before.jobs[j].stages[k].id, IsCompleted) ==>
      AllUnits(after.units, before.jobs[j].stages[k].id, IsCompleted)
  {
    assert before.jobs[j].stages[k] in before.jobs[j].stages;
    forall u | u in after.units && u !in before.units
      ensures after.units[u].stageID != before.jobs[j].stages[k].id
    {
      FreshUnitIs(stages, jobID, u, after.units[u]);
      var s :| s in stages && s.id == after.units[u].stageID;
    }
  }

  lemma SubmitKeeps(before: Db, after: Db, job: Job, split: Stage -> Option<nat>)
    requires Sound(before) && FreshIds(before, job) && SubmitDone(before, after, job, split)
    requires forall s :: s in job.stages ==> s.status != StageCompleted
    ensures Sound(after)
  {
    var mid := SubmittedUnits(before, after, job, split);
    AddingInOrder(before, mid, job.stages, job.id);
    NewJobInOrder(mid, after, job);
  }

  /** The store between the units and the job. */
  lemma SubmittedUnits(before: Db, after: Db, job: Job, split: Stage -> Option<nat>) returns (mid: Db)
    requires WellFormed(before) && FreshIds(before, job) && SubmitDone(before, after, job, split)
    ensures Adding(before, mid, job.stages, job.id) && WellFormed(mid) && WellFormed(after)
    ensures after == mid.(jobs := mid.jobs[job.id := job]) && NewJob(mid, job)
  {
    mid := before.(units := after.units);
    UnitsAreAdded(before, job.stages, job.id, split);
    AddingWellFormed(before, mid, job.stages, job.id);
    forall u | u in mid.units && HasStage(job, mid.units[u].stageID)
      ensures mid.units[u].jobID == job.id && mid.units[u].status == Pending
    {
      NewStageUnits(before, mid, job, u);
    }
    NewJobWellFormed(mid, after, job);
  }

  lemma NewStageUnits(before: Db, mid: Db, job: Job, u: string)
    requires FreshIds(before, job) && Added(before.units, mid.units, job.stages, job.id)
    requires u in mid.units && HasStage(job, mid.units[u].stageID)
    ensures u !in before.units && mid.units[u].jobID == job.id && mid.units[u].status == Pending
  {
    var k :| 0 <= k < |job.stages| && job.stages[k].id == mid.units[u].stageID;
    assert job.stages[k] in job.stages;
    if u !in before.units { FreshUnitIs(job.stages, job.id, u, mid.units[u]); }
  }

  ghost predicate NewJob(mid: Db, job: Job) {
    && job.id !in mid.jobs && UniqueIds(job.stages)
    && (forall j :: j in mid.jobs ==> Apart(mid.jobs[j].stages, job.stages))
    && (forall u :: u in mid.units && HasStage(job, mid.units[u].stageID) ==>
          mid.units[u].jobID == job.id && mid.units[u].status == Pending)
  }

  lemma NewJobWellFormed(mid: Db, after: Db, job: Job)
    requires WellFormed(mid) && NewJob(mid, job) && after == mid.(jobs := mid.jobs[job.id := job])
    ensures WellFormed(after)
  {
    forall j | j in mid.jobs
      ensures Apart(job.stages, mid.jobs[j].stages)
    {
      assert Apart(mid.jobs[j].stages, job.stages);
    }
  }

  lemma NewJobInOrder(mid: Db, after: Db, job: Job)
    requires InOrder(mid) && NewJob(mid, job) && after == mid.(jobs := mid.jobs[job.id := job])
    requires forall s :: s in job.stages ==> s.status != StageCompleted
    ensures InOrder(after)
  {
    forall u | u in after.units
      ensures UnitInOrder(after, after.units[u])
    {
      assert UnitInOrder(mid, mid.units[u]);
      if after.units[u].jobID == job.id && !HasStage(job, after.units[u].stageID) {
        assert Unlocked(job, after.units[u].stageID);
      }
    }
    forall j, k | j in after.jobs && 0 <= k < |after.jobs[j].stages|
      ensures StageInOrder(after, after.jobs[j], k)
    {
      if j == job.id {
        assert job.stages[k] in job.stages;
      } else {
        assert StageInOrder(mid, mid.jobs[j], k);
      }
    }
  }

  // ---------- the shape is kept by every step, whatever the agents report ----------

  lemma RewrittenShape(before: Db, after: Db, select: Unit -> bool, test: Unit -> bool, status: UnitStatus, message: string, now: int)
    requires after.jobs == before.jobs && after.units == Rewritten(before.units, select, test, Becomes(status, message, now))
    ensures Shaped(before, after) && NothingNew(before, after)
  {
  }

  lemma OneJobShape(before: Db, after: Db, jobID: string)
    requires WellFormed(before) && OneJob(before, after, jobID) && after.units.Keys == before.units.Keys
    requires forall u :: u in before.units ==> SameUnit(before.units[u], after.units[u])
    ensures WellFormed(after)
  {
    WellFormedKept(before, after);
  }

  lemma OutcomeSameShape(units: map<string, Unit>, stages: seq<Stage>, stageID: string)
    requires UniqueIds(stages)
    ensures SameShape(stages, Outcome(units, stages, stageID).0)
  {
    if i :| 0 <= i < |stages| && stages[i].id == stageID {
      OutcomeShape(units, stages, i);
    }
  }

  lemma PropagatedShape(before: Db, after: Db, jobID: string, stageID: string, now: int)
    requires WellFormed(before) && Propagated(before, after, jobID, stageID, now)
    ensures WellFormed(after)
  {
    if jobID in before.jobs {
      assert UniqueIds(before.jobs[jobID].stages);
      OutcomeSameShape(before.units, before.jobs[jobID].stages, stageID);
      OneJobShape(before, after, jobID);
    }
  }

  lemma OneUnitShape(before: Db, unitID: string, u: Unit)
    requires WellFormed(before) && unitID in before.units && SameUnit(before.units[unitID], u)
    ensures WellFormed(before.(units := before.units[unitID := u]))
  {
    WellFormedKept(before, before.(units := before.units[unitID := u]));
  }

  lemma ReportShape(before: Db, after: Db, maxRetries: nat, unitID: string, status: UnitStatus, exitCode: int,
                    errorMessage: string, now: int)
    requires WellFormed(before) && ReportDone(before, after, maxRetries, unitID, status, exitCode, errorMessage, now)
    ensures WellFormed(after)
  {
    if unitID != "" && unitID in before.units {
      var u := UnitWith(before.units[unitID], status, exitCode, errorMessage, now);
      OneUnitShape(before, unitID, u);
      OneUnitShape(before, unitID, Retried(u));
      if status != before.units[unitID].status && !(status == UnitStatus.Failed && u.retryCount < maxRetries) {
        var mid := before.(units := before.units[unitID := u]);
        PropagatedShape(mid, after, u.jobID, u.stageID, now);
      }
    }
  }

  lemma CycledShape(cfg: Settings, nodes: map<string, Node>, db: Db, after: Db, now: int)
    requires WellFormed(db) && Cycled(cfg, nodes, db, after, now)
    ensures WellFormed(after)
  {
    forall j | j in db.jobs
      ensures SameJob(db.jobs[j], after.jobs[j])
    {
      CycledJobMoves(cfg, db, after.units, j, after.jobs[j], now);
    }
    forall u | u in db.units
      ensures SameUnit(db.units[u], after.units[u])
    {
      Engine.CycledSame(cfg, nodes, db, db.units[u], after.units[u], now);
    }
    WellFormedKept(db, after);
  }

  /** Identities survive every step. */
  lemma StepKeepsShape(maxRetries: nat, w: World, step: Step, w': World)
    requires WellFormed(w.db) && Next(maxRetries, w, step, w')
    ensures WellFormed(w'.db)
  {
    var before, after := w.db, w'.db;
    match step {
      case Submit(job, split) =>
        var mid := SubmittedUnits(before, after, job, split);
      case SubmitRejected(job, split) =>
        RejectedShape(before, after, job, split);
      case Report(unitID, status, exitCode, errorMessage, now) =>
        ReportShape(before, after, maxRetries, unitID, status, exitCode, errorMessage, now);
      case Cycle(cfg, message, now) =>
        var mid := before.(units := Reclaimed(before.units, w.nodes, message, now));
        RewrittenShape(before, mid, IsActive(), IsStranded(w.nodes), UnitStatus.Failed, message, now);
        WellFormedKept(before, mid);
        CycledShape(cfg, w.nodes, mid, after, now);
      case Pull(cfg, nodeID, given) =>
        if given.Some? { OneUnitShape(before, given.value.id, given.value); }
      case Cancel(jobID, now) =>
        CancelShape(before, after, jobID, now);
      case Unregister(nodeID, now) =>
        RewrittenShape(before, after, OnNode(nodeID), IsActive(), UnitStatus.Failed, NODE_UNREGISTERED, now);
        WellFormedKept(before, after);
      case Elsewhere =>
        WellFormedKept(before, after);
    }
  }

  lemma RejectedShape(before: Db, after: Db, job: Job, split: Stage -> Option<nat>)
    requires WellFormed(before) && FreshIds(before, job) && SubmitFailed(before, after, job, split)
    ensures WellFormed(after)
  {
    var k :| 0 <= k < |job.stages| && split(job.stages[k]).None?
      && (forall s :: s in job.stages[..k] ==> split(s).Some?)
      && after == before.(units := before.units + UnitsOf(job.stages[..k], job.id, split));
    assert forall s :: s in job.stages[..k] ==> s in job.stages;
    UnitsAreAdded(before, job.stages[..k], job.id, split);
    AddingWellFormed(before, after, job.stages[..k], job.id);
  }

  lemma CancelShape(before: Db, after: Db, jobID: string, now: int)
    requires WellFormed(before) && CancelDone(before, after, jobID, now)
    ensures WellFormed(after)
  {
    if jobID in before.jobs {
      OneJobShape(before, after, jobID);
    }
  }
}
