/** What cancelling a job, unregistering a node and submitting a job do to the store
    (scheduler/internal/server/server.go and split.go). */
module Handlers {
  import opened FileNames
  import opened Model
  import opened StoreView

  // ---------- CancelJob ----------

  function CancelledStage(s: Stage): Stage {
    if s.status != StageCompleted && s.status != StageFailed then s.(status := StageSkipped) else s
  }

  function CancelledStages(stages: seq<Stage>): (r: seq<Stage>)
    ensures |r| == |stages| && forall i :: 0 <= i < |stages| ==> r[i] == CancelledStage(stages[i])
  {
    seq(|stages|, i requires 0 <= i < |stages| => CancelledStage(stages[i]))
  }

  const JOB_CANCELLED := "job cancelled"

  ghost predicate CancelDone(before: Db, after: Db, jobID: string, now: int) {
    if jobID !in before.jobs then after == before
    else
      var job := before.jobs[jobID];
      after == before.(
        units := Rewritten(before.units, OfJob(jobID), IsCancellable(), Becomes(Cancelled, JOB_CANCELLED, now)),
        jobs := before.jobs[jobID :=
          job.(stages := CancelledStages(job.stages), status := JobCancelled, updatedAt := now, completedAt := now)])
  }

  // ---------- UnregisterNode ----------

  const NODE_UNREGISTERED := "node unregistered"

  ghost predicate UnregisterDone(before: Db, after: Db, nodeID: string, now: int) {
    after == before.(
      units := Rewritten(before.units, OnNode(nodeID), IsActive(), Becomes(UnitStatus.Failed, NODE_UNREGISTERED, now)),
      nodes := before.nodes - {nodeID})
  }

  // ---------- SubmitJob ----------

  function UnitID(stageID: string, index: nat): string {
    "unit-" + stageID + ['-'] + Fixed(index, Width(index))
  }

  function NewUnit(stageID: string, jobID: string, index: nat): Unit {
    Unit(UnitID(stageID, index), stageID, jobID, "", Pending, 0, 0, 0, 0, "")
  }

  lemma UnitIDIs()
    ensures UnitID("s", 0) == "unit-s-0" && UnitID("s", 12) == "unit-s-12"
  {
    assert Fixed(0, Width(0)) == "0" && Fixed(12, Width(12)) == "12";
  }

  /** Unit identifiers tell the stage and the index. */
  lemma UnitIDsDiffer(a: string, i: nat, b: string, j: nat)
    requires UnitID(a, i) == UnitID(b, j)
    ensures a == b && i == j
  {
    var x, y := Fixed(i, Width(i)), Fixed(j, Width(j));
    DigitsOnly(i, Width(i), '-');
    DigitsOnly(j, Width(j), '-');
    SplitAtLast('-', "unit-" + a, x, "unit-" + b, y);
    SameTail("unit-", a, b);
    ParseFixed(i, Width(i));
    ParseFixed(j, Width(j));
  }

  /** The first `n` units of a stage. */
  function UnitsOfStage(stageID: string, jobID: string, n: nat): map<string, Unit> {
    if n == 0 then map[]
    else UnitsOfStage(stageID, jobID, n - 1)[UnitID(stageID, n - 1) := NewUnit(stageID, jobID, n - 1)]
  }

  /** The units of all the stages, given how many each is split into. */
  function UnitsOf(stages: seq<Stage>, jobID: string, split: Stage -> Option<nat>): map<string, Unit>
    requires forall s :: s in stages ==> split(s).Some?
  {
    if stages == [] then map[]
    else
      UnitsOf(stages[..|stages| - 1], jobID, split)
      + UnitsOfStage(stages[|stages| - 1].id, jobID, split(stages[|stages| - 1]).value)
  }

  lemma {:induction false} InUnitsOfStage(stageID: string, jobID: string, n: nat, id: string)
    ensures id in UnitsOfStage(stageID, jobID, n) <==> exists i: nat :: i < n && id == UnitID(stageID, i)
    ensures id in UnitsOfStage(stageID, jobID, n) ==>
      exists i: nat :: i < n && id == UnitID(stageID, i) && UnitsOfStage(stageID, jobID, n)[id] == NewUnit(stageID, jobID, i)
    decreases n
  {
    if n > 0 {
      InUnitsOfStage(stageID, jobID, n - 1, id);
    }
  }

  /** A unit as it is created for one of the stages. */
  ghost predicate FreshUnit(stages: seq<Stage>, jobID: string, id: string, u: Unit) {
    exists s, i: nat :: s in stages && id == UnitID(s.id, i) && u == NewUnit(s.id, jobID, i)
  }

  lemma {:induction false} InUnitsOf(stages: seq<Stage>, jobID: string, split: Stage -> Option<nat>, id: string)
    requires forall s :: s in stages ==> split(s).Some?
    ensures id in UnitsOf(stages, jobID, split) ==> FreshUnit(stages, jobID, id, UnitsOf(stages, jobID, split)[id])
    decreases |stages|
  {
    if stages != [] {
      var front, last := stages[..|stages| - 1], stages[|stages| - 1];
      InUnitsOf(front, jobID, split, id);
      InUnitsOfStage(last.id, jobID, split(last).value, id);
      assert forall s :: s in front ==> s in stages;
    }
  }

  /** The stored job: identifiers filled in where the request has none. */
  function WithIds(request: Job, jobID: string, stageIDs: seq<string>, now: int): Job
    requires |stageIDs| == |request.stages|
  {
    request.(
      id := if request.id == "" then jobID else request.id, status := JobPending, updatedAt := now,
      stages := seq(|request.stages|, i requires 0 <= i < |request.stages| =>
        if request.stages[i].id == "" then request.stages[i].(id := stageIDs[i]) else request.stages[i]))
  }

  ghost predicate SubmitDone(before: Db, after: Db, job: Job, split: Stage -> Option<nat>) {
    && (forall s :: s in job.stages ==> split(s).Some?)
    && after == before.(units := before.units + UnitsOf(job.stages, job.id, split), jobs := before.jobs[job.id := job])
  }

  /** A stage that cannot be split: the units of the stages before it stay behind. */
  ghost predicate SubmitFailed(before: Db, after: Db, job: Job, split: Stage -> Option<nat>) {
    exists k :: 0 <= k < |job.stages| && split(job.stages[k]).None?
      && (forall s :: s in job.stages[..k] ==> split(s).Some?)
      && after == before.(units := before.units + UnitsOf(job.stages[..k], job.id, split))
  }

  lemma NextSplit(stages: seq<Stage>, k: nat, jobID: string, split: Stage -> Option<nat>)
    requires k < |stages| && split(stages[k]).Some? && forall s :: s in stages[..k] ==> split(s).Some?
    ensures forall s :: s in stages[..k + 1] ==> split(s).Some?
    ensures UnitsOf(stages[..k + 1], jobID, split)
         == UnitsOf(stages[..k], jobID, split) + UnitsOfStage(stages[k].id, jobID, split(stages[k]).value)
  {
    assert stages[..k + 1] == stages[..k] + [stages[k]];
    assert stages[..k + 1][..k] == stages[..k];
  }

  lemma AddNothing<K, V>(a: map<K, V>)
    ensures a + map[] == a
  {
  }

  lemma AddOne<K, V>(a: map<K, V>, b: map<K, V>, k: K, v: V)
    ensures (a + b)[k := v] == a + b[k := v]
  {
  }

  lemma AddMore<K, V>(a: map<K, V>, b: map<K, V>, c: map<K, V>)
    ensures a + b + c == a + (b + c)
  {
  }
}
