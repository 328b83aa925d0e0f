/** What one scheduling cycle and one pull do (scheduler/internal/scheduler/engine.go,
    dag.go, assigner.go), unit by unit and job by job, whatever the order of the loops. */
module Cycle {
  import opened Cascade
  import opened Lists
  import opened Model
  import opened NodeFilter
  import opened StoreView
  import Topo

  /** The engine's settings, and what fits, who trusts whom and how nodes score while one
      call runs; all of these are left open. */
  datatype Settings = Settings(
    maxRetries: nat, reassignDelay: int, fits: (Resources, Resources) -> bool,
    reach: (string, string) -> bool, score: (Node, Option<ResourceSpec>) -> real)

  predicate Live(j: Job) {
    j.status == JobPending || j.status == JobRunning
  }

  // ---------- reclaiming ----------

  predicate Stranded(nodes: map<string, Node>, u: Unit) {
    u.assignedNode !in nodes || nodes[u.assignedNode].status == Offline
  }

  function IsStranded(nodes: map<string, Node>): Unit -> bool {
    (u: Unit) => Stranded(nodes, u)
  }

  function Reclaimed(units: map<string, Unit>, nodes: map<string, Node>, message: string, now: int): map<string, Unit> {
    Rewritten(units, IsActive(), IsStranded(nodes), Becomes(UnitStatus.Failed, message, now))
  }

  // ---------- which units a cycle considers ----------

  predicate Retryable(cfg: Settings, u: Unit, now: int) {
    u.status == UnitStatus.Failed && u.retryCount < cfg.maxRetries && now - u.completedAt >= cfg.reassignDelay
  }

  predicate Eligible(cfg: Settings, u: Unit, now: int) {
    u.status == Pending || Retryable(cfg, u, now)
  }

  /** The handler's copy of an eligible unit. */
  function InMemory(u: Unit): Unit {
    if u.status == UnitStatus.Failed then u.(status := Pending, assignedNode := "", errorMessage := "") else u
  }

  // ---------- stages ----------

  predicate DepCompleted(stages: seq<Stage>, dep: string) {
    FirstNamed(stages, dep).Some? && FirstNamed(stages, dep).value.status == StageCompleted
  }

  predicate DepFailed(stages: seq<Stage>, dep: string) {
    FirstNamed(stages, dep).Some? && FirstNamed(stages, dep).value.status == StageFailed
  }

  predicate DepsMet(stages: seq<Stage>, deps: seq<string>) {
    forall d :: d in deps ==> DepCompleted(stages, d)
  }

  predicate SomeDepFailed(stages: seq<Stage>, deps: seq<string>) {
    exists d :: d in deps && DepFailed(stages, d)
  }

  predicate Hopeless(stages: seq<Stage>, s: Stage) {
    !TerminalStage(s.status) && SomeDepFailed(stages, s.dependsOn)
  }

  predicate ReadyToPush(stages: seq<Stage>, s: Stage) {
    !TerminalStage(s.status) && DepsMet(stages, s.dependsOn)
  }

  function SkipIds(stages: seq<Stage>): set<string> {
    set s | s in stages && Hopeless(stages, s) :: s.id
  }

  function ReadyIds(stages: seq<Stage>): set<string> {
    set s | s in stages && ReadyToPush(stages, s) :: s.id
  }

  /** isStageReady: of the first stage with that identifier; its own status is not looked at. */
  predicate ReadyToPull(stages: seq<Stage>, stageID: string) {
    exists k :: 0 <= k < |stages| && stages[k].id == stageID && (forall i :: 0 <= i < k ==> stages[i].id != stageID)
      && DepsMet(stages, stages[k].dependsOn)
  }

  // ---------- nodes ----------

  function StageSpec(stages: seq<Stage>, stageID: string, otherwise: Option<ResourceSpec>): Option<ResourceSpec> {
    if stages == [] then otherwise
    else if stages[0].id == stageID then stages[0].resources
    else StageSpec(stages[1..], stageID, otherwise)
  }

  /** What a unit asks of its node: the stage's specification, or else the job's, with the
      "container" capability added for jobs that run an image. */
  function SpecFor(u: Unit, j: Job): Option<ResourceSpec> {
    var spec := StageSpec(j.stages, u.stageID, j.resources);
    if j.image == "" && j.baseImage == "" then spec
    else
      var base := if spec.Some? then spec.value else ResourceSpec(Resources(0, 0, 0), []);
      Some(base.(capabilities := base.capabilities + ["container"]))
  }

  function RequestFor(cfg: Settings, nodes: map<string, Node>, u: Unit, j: Job): Request {
    Request(SpecFor(u, j), j.owner, j.allowSelf, nodes, cfg.fits, cfg.reach)
  }

  predicate Suitable(cfg: Settings, nodes: map<string, Node>, u: Unit, j: Job, id: string) {
    && id in nodes && Pipeline(RequestFor(cfg, nodes, u, j))(nodes[id]) && cfg.score(nodes[id], SpecFor(u, j)) > 0.0
  }

  ghost predicate Best(cfg: Settings, nodes: map<string, Node>, u: Unit, j: Job, id: string) {
    && Suitable(cfg, nodes, u, j, id)
    && forall other :: Suitable(cfg, nodes, u, j, other) ==>
         cfg.score(nodes[other], SpecFor(u, j)) <= cfg.score(nodes[id], SpecFor(u, j))
  }

  function GivenTo(u: Unit, nodeID: string): Unit {
    InMemory(u).(assignedNode := nodeID, status := Assigned)
  }

  /** A considered unit goes to a best suitable node, if there is one. */
  ghost predicate Pushed(cfg: Settings, nodes: map<string, Node>, j: Job, before: Unit, after: Unit) {
    if exists id :: Suitable(cfg, nodes, InMemory(before), j, id)
    then exists id :: Best(cfg, nodes, InMemory(before), j, id) && after == GivenTo(before, id)
    else after == before
  }

  // ---------- the whole cycle ----------

  /** A job is visited when one of its units is considered. */
  ghost predicate Visited(cfg: Settings, db: Db, jobID: string, now: int) {
    && jobID in db.jobs && Live(db.jobs[jobID])
    && exists id :: id in db.units && db.units[id].jobID == jobID && Eligible(cfg, db.units[id], now)
  }

  /** The visited workflows with a valid stage graph have their hopeless stages skipped. */
  ghost predicate Restages(cfg: Settings, db: Db, jobID: string, now: int) {
    Visited(cfg, db, jobID, now) && db.jobs[jobID].jobType == Workflow && Topo.Sortable(db.jobs[jobID].stages)
  }

  ghost predicate JobCycled(cfg: Settings, db: Db, jobID: string, after: Job, now: int)
    requires jobID in db.jobs
  {
    if Restages(cfg, db, jobID, now)
    then Restaged(db.jobs[jobID], after, Marked(db.jobs[jobID].stages, SkipIds(db.jobs[jobID].stages)))
    else after == db.jobs[jobID]
  }

  ghost predicate UnitCycled(cfg: Settings, nodes: map<string, Node>, db: Db, before: Unit, after: Unit, now: int) {
    if !Visited(cfg, db, before.jobID, now) then after == before
    else
      var job := db.jobs[before.jobID];
      if job.jobType != Workflow then
        if Eligible(cfg, before, now) then Pushed(cfg, nodes, job, before, after) else after == before
      else if !Topo.Sortable(job.stages) then after == before
      else if before.stageID in SkipIds(job.stages) then after == CancelIn(before, SkipIds(job.stages), now)
      else if Eligible(cfg, before, now) && before.stageID in ReadyIds(job.stages)
        then Pushed(cfg, nodes, job, before, after)
      else after == before
  }

  /** Every job and every unit goes its way. */
  ghost predicate Cycled(cfg: Settings, nodes: map<string, Node>, db: Db, after: Db, now: int) {
    && after == db.(jobs := after.jobs, units := after.units)
    && after.jobs.Keys == db.jobs.Keys && after.units.Keys == db.units.Keys
    && (forall j :: j in db.jobs ==> JobCycled(cfg, db, j, after.jobs[j], now))
    && (forall u :: u in db.units ==> UnitCycled(cfg, nodes, db, db.units[u], after.units[u], now))
  }

  /** One cycle: stranded units are reclaimed first. */
  ghost predicate CycleDone(cfg: Settings, nodes: map<string, Node>, before: Db, after: Db, message: string, now: int) {
    Cycled(cfg, nodes, before.(units := Reclaimed(before.units, nodes, message, now)), after, now)
  }

  /** Units of a stage belong to the stage's job. */
  ghost predicate Linked(db: Db) {
    forall u, j :: u in db.units && j in db.jobs && HasStage(db.jobs[j], db.units[u].stageID) ==> db.units[u].jobID == j
  }

  // ---------- pulling ----------

  predicate Passing(cfg: Settings, nodes: map<string, Node>, db: Db, nodeID: string, u: Unit) {
    && nodeID in nodes && u.status == Pending && u.jobID in db.jobs && Live(db.jobs[u.jobID])
    && (db.jobs[u.jobID].jobType == Workflow ==> ReadyToPull(db.jobs[u.jobID].stages, u.stageID))
    && PassesOne(RequestFor(cfg, nodes, u, db.jobs[u.jobID]), nodes[nodeID])
  }

  /** Scores start above -1. */
  predicate Pullable(cfg: Settings, nodes: map<string, Node>, db: Db, nodeID: string, u: Unit) {
    Passing(cfg, nodes, db, nodeID, u) && PullScore(cfg, nodes, db, nodeID, u) > -1.0
  }

  function PullScore(cfg: Settings, nodes: map<string, Node>, db: Db, nodeID: string, u: Unit): real
    requires nodeID in nodes && u.jobID in db.jobs
  {
    cfg.score(nodes[nodeID], SpecFor(u, db.jobs[u.jobID]))
  }

  /** The pulling node gets a waiting unit with the highest score, if any suits it. */
  ghost predicate PullDone(cfg: Settings, nodes: map<string, Node>, before: Db, after: Db, nodeID: string, given: Option<Unit>) {
    match given
    case None => after == before && forall u :: u in before.units ==> !Pullable(cfg, nodes, before, nodeID, before.units[u])
    case Some(g) =>
      && g.id in before.units && Pullable(cfg, nodes, before, nodeID, before.units[g.id])
      && g == before.units[g.id].(assignedNode := nodeID, status := Assigned)
      && after == before.(units := before.units[g.id := g])
      && forall u :: u in before.units && Pullable(cfg, nodes, before, nodeID, before.units[u]) ==>
           PullScore(cfg, nodes, before, nodeID, before.units[u]) <= PullScore(cfg, nodes, before, nodeID, before.units[g.id])
  }
}
