/** Which stages a failure reaches, and what the cascade makes of them and of their units
    (cancelDownstreamStages in scheduler/internal/server/server.go). */
module Cascade {
  import opened StoreView
  import opened Graph
  import opened Model

  // ---------- looking stages up ----------

  /** The first stage with that name. */
  function FirstNamed(stages: seq<Stage>, name: string): (r: Option<Stage>)
    ensures r.Some? ==> r.value in stages && r.value.name == name
    ensures r.None? ==> forall s :: s in stages ==> s.name != name
  {
    if stages == [] then None
    else if stages[0].name == name then Some(stages[0])
    else FirstNamed(stages[1..], name)
  }

  /** The position of the first stage with that name, or -1. */
  method FindStageByName(stages: seq<Stage>, name: string) returns (k: int)
    ensures -1 <= k < |stages|
    ensures FirstNamed(stages, name) == if k < 0 then None else Some(stages[k])
    ensures forall i :: 0 <= i < (if k < 0 then |stages| else k) ==> stages[i].name != name
  {
    for i := 0 to |stages|
      invariant FirstNamed(stages, name) == FirstNamed(stages[i..], name)
      invariant forall j :: 0 <= j < i ==> stages[j].name != name
    {
      if stages[i].name == name {
        return i;
      }
      assert stages[i..][1..] == stages[i + 1..];
    }
    k := -1;
  }

  /** The position of the first stage with that identifier, or -1. */
  method FindStageByID(stages: seq<Stage>, id: string) returns (k: int)
    ensures -1 <= k < |stages| && (k >= 0 ==> stages[k].id == id)
    ensures forall i :: 0 <= i < (if k < 0 then |stages| else k) ==> stages[i].id != id
  {
    for i := 0 to |stages|
      invariant forall j :: 0 <= j < i ==> stages[j].id != id
    {
      if stages[i].id == id {
        return i;
      }
    }
    k := -1;
  }

  ghost predicate UniqueIds(stages: seq<Stage>) {
    forall i, j :: 0 <= i < j < |stages| ==> stages[i].id != stages[j].id
  }

  /** No two stages of the store share an identifier. */
  ghost predicate StagesApart(jobs: map<string, Job>) {
    && (forall j :: j in jobs ==> UniqueIds(jobs[j].stages))
    && (forall j, k :: j in jobs && k in jobs && j != k ==> Apart(jobs[j].stages, jobs[k].stages))
  }

  ghost predicate Apart(a: seq<Stage>, b: seq<Stage>) {
    forall s, t :: s in a && t in b ==> s.id != t.id
  }

  // ---------- the dependency relation over identifiers ----------

  /** The stage `b` depends on the stage `a`, found by its name. */
  ghost predicate Feeds(stages: seq<Stage>, a: string, b: string) {
    exists i, d :: 0 <= i < |stages| && stages[i].id == b && d in stages[i].dependsOn && Names(stages, d, a)
  }

  ghost predicate Names(stages: seq<Stage>, name: string, id: string) {
    FirstNamed(stages, name).Some? && FirstNamed(stages, name).value.id == id
  }

  ghost function Downstream(stages: seq<Stage>): (string, string) -> bool {
    (a, b) => Feeds(stages, a, b)
  }

  /** The other stages that need the failed one, directly or through others. */
  ghost predicate Needs(stages: seq<Stage>, failed: string, id: string) {
    id != failed && Reaches(Downstream(stages), failed, id)
  }

  // ---------- the effect ----------

  function Skip(s: Stage, ids: set<string>): Stage {
    if s.id in ids && !TerminalStage(s.status) then s.(status := StageSkipped) else s
  }

  function Marked(stages: seq<Stage>, ids: set<string>): (r: seq<Stage>)
    ensures |r| == |stages| && forall i :: 0 <= i < |stages| ==> r[i] == Skip(stages[i], ids)
  {
    seq(|stages|, i requires 0 <= i < |stages| => Skip(stages[i], ids))
  }

  /** The stages that marking changes. */
  function MarkedIds(stages: seq<Stage>, ids: set<string>): set<string> {
    set s | s in stages && s.id in ids && !TerminalStage(s.status) :: s.id
  }

  const UPSTREAM_FAILED := "upstream stage failed"

  function CancelIn(u: Unit, ids: set<string>, now: int): Unit {
    if u.stageID in ids && Cancellable(u.status) then UnitWith(u, Cancelled, 0, UPSTREAM_FAILED, now) else u
  }

  function CancelStages(units: map<string, Unit>, ids: set<string>, now: int): map<string, Unit> {
    map id | id in units :: CancelIn(units[id], ids, now)
  }

  /** The job with other stages; its update time is that of the last change. */
  ghost predicate Restaged(before: Job, after: Job, stages: seq<Stage>) {
    after == before.(stages := stages, updatedAt := after.updatedAt)
  }

  ghost function NeedingIds(stages: seq<Stage>, failed: string): set<string> {
    set s | s in stages && Needs(stages, failed, s.id) :: s.id
  }

  /** What the cascade from `failed` does: exactly the unfinished stages that need it become
      Skipped, and exactly their waiting or active units are cancelled. */
  ghost predicate Cascaded(before: Db, after: Db, jobID: string, failed: string, now: int)
    requires jobID in before.jobs
  {
    Skipping(before, after, jobID, NeedingIds(before.jobs[jobID].stages, failed), now)
  }

  ghost predicate Skipping(before: Db, after: Db, jobID: string, ids: set<string>, now: int)
    requires jobID in before.jobs
  {
    var stages := before.jobs[jobID].stages;
    && jobID in after.jobs && Restaged(before.jobs[jobID], after.jobs[jobID], Marked(stages, ids))
    && after == before.(jobs := before.jobs[jobID := after.jobs[jobID]],
                        units := CancelStages(before.units, MarkedIds(stages, ids), now))
  }

  lemma {:induction false} NeedingIsStage(stages: seq<Stage>, failed: string, id: string)
    ensures id in NeedingIds(stages, failed) <==> Needs(stages, failed, id)
  {
    if Needs(stages, failed, id) {
      var p :| IsPath(Downstream(stages), p) && p[0] == failed && p[|p| - 1] == id;
      assert Downstream(stages)(p[|p| - 2], p[|p| - 2 + 1]);
      var i :| 0 <= i < |stages| && stages[i].id == id;
      assert stages[i] in stages;
    }
  }

  // ---------- one more stage ----------

  lemma {:induction false} SetFirst(stages: seq<Stage>, k: nat, id: string, status: StageStatus)
    requires k < |stages| && stages[k].id == id && forall i :: 0 <= i < k ==> stages[i].id != id
    ensures SetStage(stages, id, status) == stages[k := stages[k].(status := status)]
    decreases |stages|
  {
    if k > 0 {
      SetFirst(stages[1..], k - 1, id, status);
    }
  }

  lemma SetAt(stages: seq<Stage>, k: nat, status: StageStatus)
    requires k < |stages| && UniqueIds(stages)
    ensures SetStage(stages, stages[k].id, status) == stages[k := stages[k].(status := status)]
  {
    SetFirst(stages, k, stages[k].id, status);
  }

  lemma SkipAnother(stages: seq<Stage>, ids: set<string>, k: nat)
    requires k < |stages| && UniqueIds(stages) && stages[k].id !in ids
    ensures Marked(stages, ids)[k] == stages[k]
    ensures !TerminalStage(stages[k].status) ==>
      && Marked(stages, ids + {stages[k].id}) == Marked(stages, ids)[k := stages[k].(status := StageSkipped)]
      && MarkedIds(stages, ids + {stages[k].id}) == MarkedIds(stages, ids) + {stages[k].id}
    ensures TerminalStage(stages[k].status) ==>
      && Marked(stages, ids + {stages[k].id}) == Marked(stages, ids)
      && MarkedIds(stages, ids + {stages[k].id}) == MarkedIds(stages, ids)
  {
    var id := stages[k].id;
    assert stages[k] in stages;
    forall s | s in stages && s.id == id
      ensures s == stages[k]
    {
      var i :| 0 <= i < |stages| && stages[i] == s;
    }
  }

  lemma SkipNothing(stages: seq<Stage>, ids: set<string>, id: string)
    requires forall i :: 0 <= i < |stages| ==> stages[i].id != id
    ensures Marked(stages, ids + {id}) == Marked(stages, ids) && MarkedIds(stages, ids + {id}) == MarkedIds(stages, ids)
  {
  }

  lemma CancelAnother(units: map<string, Unit>, ids: set<string>, id: string, now: int)
    requires id !in ids
    ensures Rewritten(CancelStages(units, ids, now), OfStage(id), IsCancellable(), Becomes(Cancelled, UPSTREAM_FAILED, now))
         == CancelStages(units, ids + {id}, now)
  {
    forall k | k in units
      ensures CancelIn(units[k], ids + {id}, now) ==
        if CancelIn(units[k], ids, now).stageID == id && Cancellable(CancelIn(units[k], ids, now).status)
        then UnitWith(CancelIn(units[k], ids, now), Cancelled, 0, UPSTREAM_FAILED, now) else CancelIn(units[k], ids, now)
    {
    }
  }

  lemma CancelNothing(units: map<string, Unit>, now: int)
    ensures CancelStages(units, {}, now) == units
  {
  }

  lemma MarkNothing(stages: seq<Stage>)
    ensures Marked(stages, {}) == stages && MarkedIds(stages, {}) == {}
  {
  }

  lemma StageInJob(j: Job, k: nat, status: StageStatus, now: int)
    requires UniqueIds(j.stages) && k < |j.stages|
    ensures WithStage(j, j.stages[k].id, status, now)
         == j.(stages := j.stages[k := j.stages[k].(status := status)], updatedAt := now)
  {
    SetAt(j.stages, k, status);
    assert HasStage(j, j.stages[k].id);
  }

  /** A stage update in the store reaches only the job that owns the stage. */
  lemma OnlyItsJob(jobs: map<string, Job>, jobID: string, k: nat, status: StageStatus, now: int)
    requires StagesApart(jobs) && jobID in jobs && k < |jobs[jobID].stages|
    ensures StagedAll(jobs, jobs[jobID].stages[k].id, status, now) ==
      jobs[jobID := jobs[jobID].(stages := jobs[jobID].stages[k := jobs[jobID].stages[k].(status := status)], updatedAt := now)]
  {
    var later := StagedAll(jobs, jobs[jobID].stages[k].id, status, now);
    StageInJob(jobs[jobID], k, status, now);
    forall j | j in jobs && j != jobID
      ensures later[j] == jobs[j]
    {
      OtherJob(jobs, jobID, k, j);
    }
    AllButOne(jobs, later, jobID);
  }

  lemma OtherJob(jobs: map<string, Job>, jobID: string, k: nat, other: string)
    requires StagesApart(jobs) && jobID in jobs && other in jobs && other != jobID && k < |jobs[jobID].stages|
    ensures !HasStage(jobs[other], jobs[jobID].stages[k].id)
  {
    assert jobs[jobID].stages[k] in jobs[jobID].stages && Apart(jobs[jobID].stages, jobs[other].stages);
  }

  lemma StillApart(jobs: map<string, Job>, jobID: string, j: Job)
    requires StagesApart(jobs) && jobID in jobs && |j.stages| == |jobs[jobID].stages|
    requires forall i :: 0 <= i < |j.stages| ==> j.stages[i].id == jobs[jobID].stages[i].id
    ensures StagesApart(jobs[jobID := j])
  {
    var later := jobs[jobID := j];
    assert UniqueIds(j.stages);
    forall a, b | a in later && b in later && a != b
      ensures Apart(later[a].stages, later[b].stages)
    {
      SameIdsApart(jobs[a].stages, jobs[b].stages, later[a].stages, later[b].stages);
    }
  }

  lemma SameIdsApart(a: seq<Stage>, b: seq<Stage>, a': seq<Stage>, b': seq<Stage>)
    requires Apart(a, b) && SameIds(a, a') && SameIds(b, b')
    ensures Apart(a', b')
  {
    forall s, t | s in a' && t in b'
      ensures s.id != t.id
    {
      var i :| 0 <= i < |a'| && a'[i] == s;
      var k :| 0 <= k < |b'| && b'[k] == t;
      assert a[i] in a && b[k] in b;
    }
  }

  ghost predicate SameIds(a: seq<Stage>, b: seq<Stage>) {
    |a| == |b| && forall i :: 0 <= i < |a| ==> a[i].id == b[i].id
  }

  /** How far the marking has come: the store, and the handler's own copy of the stages. */
  ghost predicate Marking(before: Db, db: Db, jobID: string, stages: seq<Stage>, ids: set<string>, now: int) {
    && Keyed(before) && StagesApart(before.jobs) && jobID in before.jobs
    && Skipping(before, db, jobID, ids, now) && stages == Marked(before.jobs[jobID].stages, ids)
  }

  /** The same as a function value, which keeps it out of the way of the loops. */
  ghost function MarkingOf(before: Db, jobID: string, now: int): (Db, seq<Stage>, set<string>) -> bool {
    (db: Db, stages: seq<Stage>, ids: set<string>) => Marking(before, db, jobID, stages, ids, now)
  }

  lemma MarkingStarts(db: Db, jobID: string, now: int)
    requires Keyed(db) && StagesApart(db.jobs) && jobID in db.jobs
    ensures Marking(db, db, jobID, db.jobs[jobID].stages, {}, now)
  {
    MarkNothing(db.jobs[jobID].stages);
    CancelNothing(db.units, now);
  }

  lemma MarkingKeeps(before: Db, db: Db, jobID: string, stages: seq<Stage>, ids: set<string>, now: int)
    requires Marking(before, db, jobID, stages, ids, now)
    ensures Keyed(db) && StagesApart(db.jobs) && jobID in db.jobs && db.jobs[jobID].stages == stages
    ensures UniqueIds(stages)
  {
    StillApart(before.jobs, jobID, db.jobs[jobID]);
  }

  lemma MarkingTerminal(before: Db, db: Db, jobID: string, stages: seq<Stage>, ids: set<string>, k: nat, now: int)
    requires Marking(before, db, jobID, stages, ids, now)
    requires k < |stages| && stages[k].id !in ids && TerminalStage(stages[k].status)
    ensures Marking(before, db, jobID, stages, ids + {stages[k].id}, now)
  {
    SkipAnother(before.jobs[jobID].stages, ids, k);
  }

  lemma MarkingNothing(before: Db, db: Db, jobID: string, stages: seq<Stage>, ids: set<string>, id: string, now: int)
    requires Marking(before, db, jobID, stages, ids, now)
    requires forall i :: 0 <= i < |stages| ==> stages[i].id != id
    ensures Marking(before, db, jobID, stages, ids + {id}, now)
  {
    var original := before.jobs[jobID].stages;
    assert forall i :: 0 <= i < |original| ==> original[i].id == stages[i].id;
    SkipNothing(original, ids, id);
  }

  lemma MarkingNext(before: Db, db: Db, later: Db, jobID: string, stages: seq<Stage>, ids: set<string>, k: nat, now: int)
    requires Marking(before, db, jobID, stages, ids, now)
    requires k < |stages| && stages[k].id !in ids && !TerminalStage(stages[k].status)
    requires later == db.(
      jobs := StagedAll(db.jobs, stages[k].id, StageSkipped, now),
      units := Rewritten(db.units, OfStage(stages[k].id), IsCancellable(), Becomes(Cancelled, UPSTREAM_FAILED, now)))
    ensures Marking(before, later, jobID, stages[k := stages[k].(status := StageSkipped)], ids + {stages[k].id}, now)
  {
    var original := before.jobs[jobID].stages;
    MarkingKeeps(before, db, jobID, stages, ids, now);
    SkipAnother(original, ids, k);
    assert original[k].id == stages[k].id;
    FreshCancel(original, ids, k);
    CancelAnother(before.units, MarkedIds(original, ids), stages[k].id, now);
    NextJobs(before.jobs, db.jobs, jobID, stages, k, now);
  }

  lemma NextJobs(before: map<string, Job>, jobs: map<string, Job>, jobID: string, stages: seq<Stage>, k: nat, now: int)
    requires StagesApart(jobs) && jobID in before && jobID in jobs && jobs == before[jobID := jobs[jobID]]
    requires Restaged(before[jobID], jobs[jobID], stages) && k < |stages|
    ensures
      var later := StagedAll(jobs, stages[k].id, StageSkipped, now);
      && jobID in later && later == before[jobID := later[jobID]]
      && Restaged(before[jobID], later[jobID], stages[k := stages[k].(status := StageSkipped)])
  {
    OnlyItsJob(jobs, jobID, k, StageSkipped, now);
  }

  lemma FreshCancel(stages: seq<Stage>, ids: set<string>, k: nat)
    requires k < |stages| && stages[k].id !in ids
    ensures stages[k].id !in MarkedIds(stages, ids)
  {
  }

  /** Marks the stage in memory and in the store, and cancels its units; the cascade and the
      scheduling cycle both do this. */
  method SkipStage(store: Buckets, ghost before: Db, jobID: string, stages: seq<Stage>, ghost ids: set<string>,
                   k: nat, now: int)
    returns (after: seq<Stage>)
    requires Marking(before, store.db, jobID, stages, ids, now) && k < |stages| && stages[k].id !in ids
    modifies store
    ensures Marking(before, store.db, jobID, after, ids + {stages[k].id}, now)
  {
    after := stages;
    MarkingKeeps(before, store.db, jobID, stages, ids, now);
    if stages[k].status == StageCompleted || stages[k].status == StageFailed || stages[k].status == StageSkipped {
      MarkingTerminal(before, store.db, jobID, stages, ids, k, now);
      return;
    }
    ghost var db := store.db;
    after := stages[k := stages[k].(status := StageSkipped)];
    store.UpdateStageStatus(stages[k].id, StageSkipped, now);
    store.UpdateUnits(OfStage(stages[k].id), IsCancellable(), Cancelled, UPSTREAM_FAILED, now);
    MarkingNext(before, db, store.db, jobID, stages, ids, k, now);
  }

  // ---------- what it leaves behind ----------

  /** Exactly the unfinished stages that need the failed one change, and they become
      Skipped without a waiting or active unit. */
  lemma SkipsExactly(before: Db, after: Db, jobID: string, failed: string, now: int, k: nat)
    requires jobID in before.jobs && Cascaded(before, after, jobID, failed, now)
    requires k < |before.jobs[jobID].stages|
    ensures |after.jobs[jobID].stages| == |before.jobs[jobID].stages|
    ensures Needs(before.jobs[jobID].stages, failed, before.jobs[jobID].stages[k].id)
            && !TerminalStage(before.jobs[jobID].stages[k].status) ==>
      && after.jobs[jobID].stages[k] == before.jobs[jobID].stages[k].(status := StageSkipped)
      && NoneLeft(after.units, before.jobs[jobID].stages[k].id)
    ensures !(Needs(before.jobs[jobID].stages, failed, before.jobs[jobID].stages[k].id)
              && !TerminalStage(before.jobs[jobID].stages[k].status)) ==>
      after.jobs[jobID].stages[k] == before.jobs[jobID].stages[k]
  {
    var stages := before.jobs[jobID].stages;
    NeedingIsStage(stages, failed, stages[k].id);
    assert stages[k] in stages;
    if Needs(stages, failed, stages[k].id) && !TerminalStage(stages[k].status) {
      assert stages[k].id in MarkedIds(stages, NeedingIds(stages, failed));
    }
  }

  ghost predicate NoneLeft(units: map<string, Unit>, stageID: string) {
    forall id :: id in units && units[id].stageID == stageID ==> !Cancellable(units[id].status)
  }
}
