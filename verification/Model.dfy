/** The records the scheduler stores (proto/v1/common.pb.go) and the effect of every
    logged store operation on them (scheduler/internal/store/store.go).

    Buckets are maps and one transaction is one function application.  Fields that no
    modelled operation reads or writes are left out of the records.
 */
module Model {
  datatype Option<+T> = None | Some(value: T)

  datatype NodeStatus = NodeUnspecified | Online | Offline | Busy | Unhealthy | Suspended
  datatype JobType = TypeUnspecified | Single | Aggregate | Workflow
  datatype JobStatus = JobUnspecified | JobPending | JobRunning | JobCompleted | JobFailed | JobCancelled
  datatype StageStatus =
    StageUnspecified | StagePending | StageRunning | StageCompleted | StageFailed | StageSkipped
  datatype UnitStatus =
    Unspecified | Pending | Assigned | Running | Completed | Failed | Timeout | Retrying | Cancelled

  datatype Resources = Resources(cpu: nat, memory: nat, disk: nat)

  datatype ResourceSpec = ResourceSpec(needs: Resources, capabilities: seq<string>)

  datatype Node = Node(
    id: string, status: NodeStatus, resources: Option<Resources>, capabilities: Option<seq<string>>,
    blockList: seq<string>)

  datatype Stage = Stage(
    id: string, name: string, dependsOn: seq<string>, status: StageStatus, resources: Option<ResourceSpec>)

  datatype Job = Job(
    id: string, jobType: JobType, owner: string, allowSelf: bool, image: string, baseImage: string,
    resources: Option<ResourceSpec>, stages: seq<Stage>, status: JobStatus, updatedAt: int, completedAt: int)

  datatype Unit = Unit(
    id: string, stageID: string, jobID: string, assignedNode: string, status: UnitStatus, retryCount: nat,
    startedAt: int, completedAt: int, exitCode: int, errorMessage: string)

  datatype TrustEdge = TrustEdge(from: string, to: string, createdAt: int, expiresAt: int)

  datatype InviteCode = InviteCode(code: string, createdBy: string, expiresAt: int, maxUses: int, usedCount: int)

  datatype Db = Db(
    nodes: map<string, Node>, jobs: map<string, Job>, units: map<string, Unit>, trust: map<string, TrustEdge>,
    invites: map<string, InviteCode>, ipam: map<string, string>)

  const EmptyDb := Db(map[], map[], map[], map[], map[], map[])

  /** The operations that are written to the log. */
  datatype Op =
    | SaveNode(node: Node)
    | DeleteNode(nodeID: string)
    | SaveJob(job: Job)
    | DeleteJob(jobID: string)
    | UpdateJobStatus(jobID: string, jobStatus: JobStatus)
    | SaveUnit(unit: Unit)
    | UpdateStageStatus(stageID: string, stageStatus: StageStatus)
    | SaveTrustEdge(edge: TrustEdge)
    | DeleteTrustEdge(from: string, to: string)
    | SaveIPAllocation(nodeID: string, ip: string)
    | DeleteIPAllocation(nodeID: string)
    | SaveInviteCode(invite: InviteCode)
    | DeleteInviteCode(code: string)

  predicate TerminalJob(s: JobStatus) {
    s == JobCompleted || s == JobFailed || s == JobCancelled
  }

  predicate TerminalStage(s: StageStatus) {
    s == StageCompleted || s == StageFailed || s == StageSkipped
  }

  /** Units that a cascade or a cancellation still reaches. */
  predicate Cancellable(s: UnitStatus) {
    s == Pending || s == Assigned || s == Running
  }

  function WithStatus(j: Job, status: JobStatus, now: int): Job {
    j.(status := status, updatedAt := now, completedAt := if TerminalJob(status) then now else j.completedAt)
  }

  /** A unit after UpdateUnitStatus. */
  function UnitWith(u: Unit, status: UnitStatus, exitCode: int, errorMessage: string, now: int): Unit {
    u.(status := status, exitCode := exitCode, errorMessage := errorMessage,
       startedAt := if status == Running && u.startedAt == 0 then now else u.startedAt,
       completedAt := if status == UnitStatus.Completed || status == UnitStatus.Failed || status == Cancelled then now else u.completedAt)
  }

  predicate HasStage(j: Job, stageID: string) {
    exists i :: 0 <= i < |j.stages| && j.stages[i].id == stageID
  }

  /** The stages with the status of the first one called `stageID` replaced. */
  function SetStage(stages: seq<Stage>, stageID: string, status: StageStatus): (r: seq<Stage>)
    ensures |r| == |stages|
  {
    if stages == [] then []
    else if stages[0].id == stageID then [stages[0].(status := status)] + stages[1..]
    else [stages[0]] + SetStage(stages[1..], stageID, status)
  }

  function WithStage(j: Job, stageID: string, status: StageStatus, now: int): Job {
    if HasStage(j, stageID) then j.(stages := SetStage(j.stages, stageID, status), updatedAt := now) else j
  }

  /** The stage is looked for in every job. */
  function StagedAll(jobs: map<string, Job>, stageID: string, status: StageStatus, now: int): map<string, Job> {
    map j | j in jobs :: WithStage(jobs[j], stageID, status, now)
  }

  function EdgeKey(from: string, to: string): string {
    from + ":" + to
  }

  /** The store after one operation at time `now`; None is the error return, which
      changes nothing. */
  function Apply(db: Db, op: Op, now: int): Option<Db> {
    match op
    case SaveNode(n) => Some(db.(nodes := db.nodes[n.id := n]))
    case DeleteNode(id) => Some(db.(nodes := db.nodes - {id}))
    case SaveJob(j) => Some(db.(jobs := db.jobs[j.id := j]))
    case DeleteJob(id) =>
      Some(db.(units := map u | u in db.units && db.units[u].jobID != id :: db.units[u], jobs := db.jobs - {id}))
    case UpdateJobStatus(id, status) =>
      if id in db.jobs then Some(db.(jobs := db.jobs[id := WithStatus(db.jobs[id], status, now)])) else None
    case SaveUnit(u) => Some(db.(units := db.units[u.id := u]))
    case UpdateStageStatus(id, status) =>
      Some(db.(jobs := StagedAll(db.jobs, id, status, now)))
    case SaveTrustEdge(e) => Some(db.(trust := db.trust[EdgeKey(e.from, e.to) := e]))
    case DeleteTrustEdge(from, to) => Some(db.(trust := db.trust - {EdgeKey(from, to)}))
    case SaveIPAllocation(node, ip) => Some(db.(ipam := db.ipam[node := ip]))
    case DeleteIPAllocation(node) => Some(db.(ipam := db.ipam - {node}))
    case SaveInviteCode(c) => Some(db.(invites := db.invites[c.code := c]))
    case DeleteInviteCode(code) => Some(db.(invites := db.invites - {code}))
  }

  // ---------- equality up to the clocks ----------

  function EraseJob(j: Job): Job {
    j.(updatedAt := 0, completedAt := 0)
  }

  /** Equal stores, except for the two job times that a replay sets from its own clock. */
  ghost predicate SameData(a: Db, b: Db) {
    && a.nodes == b.nodes && a.units == b.units && a.trust == b.trust
    && a.invites == b.invites && a.ipam == b.ipam
    && SameJobs(a.jobs, b.jobs)
  }

  ghost predicate SameJobs(a: map<string, Job>, b: map<string, Job>) {
    a.Keys == b.Keys && forall id :: id in a ==> EraseJob(a[id]) == EraseJob(b[id])
  }

  /** Equal in all but the two times of each job. */
  lemma SameDataIs(a: Db, b: Db)
    ensures SameData(a, b) <==>
      && a.nodes == b.nodes && a.units == b.units && a.trust == b.trust && a.invites == b.invites && a.ipam == b.ipam
      && a.jobs.Keys == b.jobs.Keys
      && forall id :: id in a.jobs ==>
           b.jobs[id] == a.jobs[id].(updatedAt := b.jobs[id].updatedAt, completedAt := b.jobs[id].completedAt)
  {
    forall id | id in a.jobs && id in b.jobs
      ensures EraseJob(a.jobs[id]) == EraseJob(b.jobs[id]) <==>
        b.jobs[id] == a.jobs[id].(updatedAt := b.jobs[id].updatedAt, completedAt := b.jobs[id].completedAt)
    {
      var j, k := a.jobs[id], b.jobs[id];
      assert EraseJob(j).(updatedAt := k.updatedAt, completedAt := k.completedAt)
          == j.(updatedAt := k.updatedAt, completedAt := k.completedAt);
      assert EraseJob(k).(updatedAt := k.updatedAt, completedAt := k.completedAt) == k;
    }
  }

  lemma SameStaged(a: Job, b: Job, id: string, status: StageStatus, now: int, later: int)
    requires EraseJob(a) == EraseJob(b)
    ensures EraseJob(WithStage(a, id, status, now)) == EraseJob(WithStage(b, id, status, later))
  {
    assert a.stages == EraseJob(a).stages == b.stages;
    assert HasStage(a, id) == HasStage(b, id);
    assert EraseJob(a).(updatedAt := a.updatedAt, completedAt := a.completedAt) == a;
    assert EraseJob(b).(updatedAt := b.updatedAt, completedAt := b.completedAt) == b;
  }

  lemma SameWithStatus(a: Job, b: Job, status: JobStatus, now: int, later: int)
    requires EraseJob(a) == EraseJob(b)
    ensures EraseJob(WithStatus(a, status, now)) == EraseJob(WithStatus(b, status, later))
  {
    assert EraseJob(WithStatus(a, status, now)) == EraseJob(a).(status := status);
    assert EraseJob(WithStatus(b, status, later)) == EraseJob(b).(status := status);
  }

  ghost predicate SameOutcome(a: Option<Db>, b: Option<Db>) {
    if a.Some? then b.Some? && SameData(a.value, b.value) else b.None?
  }

  lemma JobStatusIgnoresClocks(a: Db, b: Db, op: Op, now: int, later: int)
    requires SameData(a, b) && op.UpdateJobStatus?
    ensures SameOutcome(Apply(a, op, now), Apply(b, op, later))
  {
    if op.jobID in a.jobs { SameWithStatus(a.jobs[op.jobID], b.jobs[op.jobID], op.jobStatus, now, later); }
  }

  lemma StageStatusIgnoresClocks(a: Db, b: Db, op: Op, now: int, later: int)
    requires SameData(a, b) && op.UpdateStageStatus?
    ensures SameOutcome(Apply(a, op, now), Apply(b, op, later))
  {
    forall j | j in a.jobs
      ensures EraseJob(WithStage(a.jobs[j], op.stageID, op.stageStatus, now))
           == EraseJob(WithStage(b.jobs[j], op.stageID, op.stageStatus, later))
    {
      SameStaged(a.jobs[j], b.jobs[j], op.stageID, op.stageStatus, now, later);
    }
  }

  lemma JobWritesIgnoreClocks(a: Db, b: Db, op: Op, now: int, later: int)
    requires SameData(a, b) && (op.SaveJob? || op.DeleteJob?)
    ensures SameOutcome(Apply(a, op, now), Apply(b, op, later))
  {
    assert SameJobs(Apply(a, op, now).value.jobs, Apply(b, op, later).value.jobs);
  }

  /** Stores that agree up to the clocks still do after the same operation, which
      succeeds on both or on neither, at whatever times it runs. */
  lemma ApplyIgnoresClocks(a: Db, b: Db, op: Op, now: int, later: int)
    requires SameData(a, b)
    ensures SameOutcome(Apply(a, op, now), Apply(b, op, later))
  {
    if op.UpdateJobStatus? {
      JobStatusIgnoresClocks(a, b, op, now, later);
    } else if op.UpdateStageStatus? {
      StageStatusIgnoresClocks(a, b, op, now, later);
    } else if op.SaveJob? || op.DeleteJob? {
      JobWritesIgnoreClocks(a, b, op, now, later);
    }
  }

  // ---------- runs of operations ----------

  /** The store after all of `ops` from `db`, if none of them fails; times are left at 0. */
  function Replayed(db: Db, ops: seq<Op>): Option<Db> {
    if ops == [] then Some(db)
    else
      match Replayed(db, ops[..|ops| - 1])
      case None => None
      case Some(mid) => Apply(mid, ops[|ops| - 1], 0)
  }
}
