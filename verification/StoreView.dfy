/** The store as the scheduler's handlers see it: the buckets alone, with one logged
    operation (Model.Apply) per call, and the loops that list units and update them. */
module StoreView {
  import opened Graph
  import opened Model

  /** Records are stored under their own identifiers. */
  ghost predicate Keyed(db: Db) {
    && (forall id :: id in db.jobs ==> db.jobs[id].id == id)
    && (forall id :: id in db.units ==> db.units[id].id == id)
  }

  // ---------- which units a call asks for ----------

  function OfStage(stageID: string): Unit -> bool {
    (u: Unit) => u.stageID == stageID
  }

  function OfJob(jobID: string): Unit -> bool {
    (u: Unit) => u.jobID == jobID
  }

  function OnNode(nodeID: string): Unit -> bool {
    (u: Unit) => u.assignedNode == nodeID
  }

  function IsPending(): Unit -> bool {
    (u: Unit) => u.status == Pending
  }

  function IsFailed(): Unit -> bool {
    (u: Unit) => u.status == UnitStatus.Failed
  }

  function IsCancellable(): Unit -> bool {
    (u: Unit) => Cancellable(u.status)
  }

  function IsActive(): Unit -> bool {
    (u: Unit) => Active(u.status)
  }

  /** Held by a node. */
  predicate Active(s: UnitStatus) {
    s == Assigned || s == Running
  }

  /** The chosen units, once each, in some order. */
  ghost predicate Listed(units: map<string, Unit>, select: Unit -> bool, list: seq<Unit>) {
    && (forall i :: 0 <= i < |list| ==> list[i].id in units && units[list[i].id] == list[i] && select(list[i]))
    && (forall id :: id in units && select(units[id]) ==> units[id] in list)
    && (forall i, j :: 0 <= i < j < |list| ==> list[i].id != list[j].id)
  }

  method ListUnits(units: map<string, Unit>, select: Unit -> bool) returns (list: seq<Unit>)
    requires forall id :: id in units ==> units[id].id == id
    ensures Listed(units, select, list)
  {
    list := [];
    var rest := units.Keys;
    while rest != {}
      invariant rest <= units.Keys
      invariant forall i :: 0 <= i < |list| ==>
        list[i].id in units.Keys - rest && units[list[i].id] == list[i] && select(list[i])
      invariant forall id :: id in units.Keys - rest && select(units[id]) ==> units[id] in list
      invariant forall i, j :: 0 <= i < j < |list| ==> list[i].id != list[j].id
      decreases rest
    {
      var id :| id in rest;
      rest := rest - {id};
      if select(units[id]) {
        list := list + [units[id]];
      }
    }
  }

  // ---------- updating many units ----------

  /** `m` with `f` applied to the values that are selected and pass `test`. */
  function Rewritten<K, V>(m: map<K, V>, select: V -> bool, test: V -> bool, f: V -> V): map<K, V> {
    map k | k in m :: if select(m[k]) && test(m[k]) then f(m[k]) else m[k]
  }

  /** What UpdateUnitStatus does to one unit. */
  function Becomes(status: UnitStatus, errorMessage: string, now: int): Unit -> Unit {
    (u: Unit) => UnitWith(u, status, 0, errorMessage, now)
  }

  /** The loop of an update with the keys in `done` dealt with. */
  ghost function Partial<K, V>(m: map<K, V>, done: set<K>, test: V -> bool, f: V -> V): map<K, V> {
    map k | k in m :: if k in done && test(m[k]) then f(m[k]) else m[k]
  }

  lemma PartialNext<K, V>(m: map<K, V>, done: set<K>, k: K, test: V -> bool, f: V -> V)
    requires k in m && k !in done
    ensures k in Partial(m, done, test, f) && Partial(m, done, test, f)[k] == m[k]
    ensures Partial(m, done + {k}, test, f) ==
      if test(m[k]) then Partial(m, done, test, f)[k := f(m[k])] else Partial(m, done, test, f)
  {
  }

  lemma PartialStarts<K, V>(m: map<K, V>, test: V -> bool, f: V -> V)
    ensures Partial(m, {}, test, f) == m
  {
  }

  lemma PartialEnds<K, V>(m: map<K, V>, done: set<K>, select: V -> bool, test: V -> bool, f: V -> V)
    requires forall k :: k in m ==> (k in done <==> select(m[k]))
    ensures Partial(m, done, test, f) == Rewritten(m, select, test, f)
  {
  }

  lemma ListedIds(units: map<string, Unit>, list: seq<Unit>, select: Unit -> bool, ids: seq<string>)
    requires Listed(units, select, list) && forall id :: id in units ==> units[id].id == id
    requires |ids| == |list| && forall i :: 0 <= i < |list| ==> ids[i] == list[i].id
    ensures Distinct(ids) && forall id :: id in units ==> (id in Elements(ids) <==> select(units[id]))
    ensures forall i :: 0 <= i < |ids| ==> ids[i] in units && units[ids[i]] == list[i]
  {
    forall id | id in units && select(units[id])
      ensures id in ids
    {
      var k :| 0 <= k < |list| && list[k] == units[id];
      assert ids[k] == id;
    }
  }

  lemma AllButOne<K, V>(a: map<K, V>, b: map<K, V>, k: K)
    requires a.Keys == b.Keys && k in a && forall j :: j in a && j != k ==> b[j] == a[j]
    ensures b == a[k := b[k]]
  {
  }

  class Buckets {
    var db: Db

    method SaveUnit(u: Unit)
      modifies this
      ensures db == old(db).(units := old(db).units[u.id := u])
      ensures Apply(old(db), Op.SaveUnit(u), 0) == Some(db)
    {
      db := db.(units := db.units[u.id := u]);
    }

    method SaveJob(j: Job)
      modifies this
      ensures db == old(db).(jobs := old(db).jobs[j.id := j])
      ensures Apply(old(db), Op.SaveJob(j), 0) == Some(db)
    {
      db := db.(jobs := db.jobs[j.id := j]);
    }

    method UpdateUnitStatus(id: string, status: UnitStatus, exitCode: int, errorMessage: string, now: int)
      requires id in db.units && db.units[id].id == id
      modifies this
      ensures db == old(db).(units := old(db).units[id := UnitWith(old(db).units[id], status, exitCode, errorMessage, now)])
      ensures Apply(old(db), Op.SaveUnit(UnitWith(old(db).units[id], status, exitCode, errorMessage, now)), now) == Some(db)
    {
      db := db.(units := db.units[id := UnitWith(db.units[id], status, exitCode, errorMessage, now)]);
    }

    method UpdateStageStatus(id: string, status: StageStatus, now: int)
      modifies this
      ensures db == old(db).(jobs := StagedAll(old(db).jobs, id, status, now))
      ensures Apply(old(db), Op.UpdateStageStatus(id, status), now) == Some(db)
    {
      db := db.(jobs := map j | j in db.jobs :: WithStage(db.jobs[j], id, status, now));
    }

    method UpdateJobStatus(id: string, status: JobStatus, now: int)
      requires id in db.jobs
      modifies this
      ensures db == old(db).(jobs := old(db).jobs[id := WithStatus(old(db).jobs[id], status, now)])
      ensures Apply(old(db), Op.UpdateJobStatus(id, status), now) == Some(db)
    {
      db := db.(jobs := db.jobs[id := WithStatus(db.jobs[id], status, now)]);
    }

    /** Lists the selected units, then updates those that pass `test` one by one. */
    method UpdateUnits(select: Unit -> bool, test: Unit -> bool, status: UnitStatus, errorMessage: string, now: int)
      requires forall id :: id in db.units ==> db.units[id].id == id
      modifies this
      ensures db == old(db).(units := Rewritten(old(db).units, select, test, Becomes(status, errorMessage, now)))
    {
      var list := ListUnits(db.units, select);
      UpdateListed(list, select, test, status, errorMessage, now);
    }

    method UpdateListed(list: seq<Unit>, ghost select: Unit -> bool, test: Unit -> bool, status: UnitStatus,
                        errorMessage: string, now: int)
      requires Listed(db.units, select, list) && forall id :: id in db.units ==> db.units[id].id == id
      modifies this
      ensures db == old(db).(units := Rewritten(old(db).units, select, test, Becomes(status, errorMessage, now)))
    {
      ghost var before, f := db.units, Becomes(status, errorMessage, now);
      ghost var ids := seq(|list|, i requires 0 <= i < |list| => list[i].id);
      ListedIds(before, list, select, ids);
      PartialStarts(before, test, f);
      assert Elements(ids[..0]) == {};
      for i := 0 to |list|
        invariant db == old(db).(units := Partial(before, Elements(ids[..i]), test, f))
      {
        NextElement(ids, i);
        PartialNext(before, Elements(ids[..i]), ids[i], test, f);
        if test(list[i]) {
          UpdateUnitStatus(list[i].id, status, 0, errorMessage, now);
        }
      }
      assert ids[..|ids|] == ids;
      PartialEnds(before, Elements(ids), select, test, f);
    }

    method SaveIPAllocation(nodeID: string, ip: string)
      modifies this
      ensures db == old(db).(ipam := old(db).ipam[nodeID := ip])
      ensures Apply(old(db), Op.SaveIPAllocation(nodeID, ip), 0) == Some(db)
    {
      db := db.(ipam := db.ipam[nodeID := ip]);
    }

    method DeleteIPAllocation(nodeID: string)
      modifies this
      ensures db == old(db).(ipam := old(db).ipam - {nodeID})
      ensures Apply(old(db), Op.DeleteIPAllocation(nodeID), 0) == Some(db)
    {
      db := db.(ipam := db.ipam - {nodeID});
    }

    method DeleteNode(id: string)
      modifies this
      ensures db == old(db).(nodes := old(db).nodes - {id})
      ensures Apply(old(db), Op.DeleteNode(id), 0) == Some(db)
    {
      db := db.(nodes := db.nodes - {id});
    }
  }

  /** The nodes known to the running scheduler, with the status the failure detector gave
      them (scheduler/internal/registry/registry.go). */
  class Registry {
    var nodes: map<string, Node>
  }
}
