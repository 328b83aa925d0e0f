/** The survey of a workflow's stages in topological order (scheduleWorkflow in
    scheduler/internal/scheduler/dag.go): which stages are skipped and which units are ready
    does not depend on the order. */
module Dag {
  import opened Cascade
  import opened Cycle
  import opened Lists
  import opened Model
  import opened StoreView
  import Graph
  import Topo

  // ---------- marking does not change what the dependencies look like ----------

  lemma {:induction false} MarkedNamed(stages: seq<Stage>, ids: set<string>, name: string)
    ensures FirstNamed(Marked(stages, ids), name) ==
      match FirstNamed(stages, name) case None => None case Some(s) => Some(Skip(s, ids))
    decreases |stages|
  {
    if stages != [] {
      assert Marked(stages, ids)[1..] == Marked(stages[1..], ids);
      MarkedNamed(stages[1..], ids, name);
    }
  }

  lemma MarkedDeps(stages: seq<Stage>, ids: set<string>, dep: string)
    ensures DepFailed(Marked(stages, ids), dep) <==> DepFailed(stages, dep)
    ensures DepCompleted(Marked(stages, ids), dep) <==> DepCompleted(stages, dep)
  {
    MarkedNamed(stages, ids, dep);
  }

  lemma MarkedAllDeps(stages: seq<Stage>, ids: set<string>, deps: seq<string>)
    ensures SomeDepFailed(Marked(stages, ids), deps) == SomeDepFailed(stages, deps)
    ensures DepsMet(Marked(stages, ids), deps) == DepsMet(stages, deps)
    ensures SomeDepFailed(stages, deps) ==> !DepsMet(stages, deps)
  {
    forall d
      ensures DepFailed(Marked(stages, ids), d) <==> DepFailed(stages, d)
      ensures DepCompleted(Marked(stages, ids), d) <==> DepCompleted(stages, d)
    {
      MarkedDeps(stages, ids, d);
    }
    if SomeDepFailed(stages, deps) {
      var d :| d in deps && DepFailed(stages, d);
      assert !DepCompleted(stages, d);
    }
  }

  /** Nor what a unit asks for. */
  lemma {:induction false} MarkedSpec(stages: seq<Stage>, ids: set<string>, stageID: string, otherwise: Option<ResourceSpec>)
    ensures StageSpec(Marked(stages, ids), stageID, otherwise) == StageSpec(stages, stageID, otherwise)
    decreases |stages|
  {
    if stages != [] {
      assert Marked(stages, ids)[1..] == Marked(stages[1..], ids);
      MarkedSpec(stages[1..], ids, stageID, otherwise);
    }
  }

  lemma MarkedPushed(cfg: Settings, nodes: map<string, Node>, j: Job, ids: set<string>, before: Unit, after: Unit)
    ensures Pushed(cfg, nodes, j.(stages := Marked(j.stages, ids)), before, after) <==> Pushed(cfg, nodes, j, before, after)
  {
    var marked := j.(stages := Marked(j.stages, ids));
    var u := InMemory(before);
    MarkedSpec(j.stages, ids, u.stageID, j.resources);
    assert SpecFor(u, marked) == SpecFor(u, j);
    assert RequestFor(cfg, nodes, u, marked) == RequestFor(cfg, nodes, u, j);
    forall id
      ensures Suitable(cfg, nodes, u, marked, id) <==> Suitable(cfg, nodes, u, j, id)
      ensures Best(cfg, nodes, u, marked, id) <==> Best(cfg, nodes, u, j, id)
    {
      assert forall other :: Suitable(cfg, nodes, u, marked, other) <==> Suitable(cfg, nodes, u, j, other);
    }
  }

  // ---------- the survey ----------

  function HopelessAmong(stages: seq<Stage>, seen: seq<Stage>): set<string> {
    set s | s in seen && Hopeless(stages, s) :: s.id
  }

  function ReadyAmong(stages: seq<Stage>, seen: seq<Stage>): set<string> {
    set s | s in seen && ReadyToPush(stages, s) :: s.id
  }

  ghost predicate DistinctIds(list: seq<Unit>) {
    forall i, j :: 0 <= i < j < |list| ==> list[i].id != list[j].id
  }

  /** The ready units collected so far. */
  ghost predicate Collected(list: seq<Unit>, ids: set<string>, ready: seq<Unit>) {
    DistinctIds(ready) && forall u :: u in ready <==> u in list && u.stageID in ids
  }

  lemma SeenNext(stages: seq<Stage>, sorted: seq<Stage>, i: nat)
    requires i < |sorted|
    ensures HopelessAmong(stages, sorted[..i + 1])
         == HopelessAmong(stages, sorted[..i]) + (if Hopeless(stages, sorted[i]) then {sorted[i].id} else {})
    ensures ReadyAmong(stages, sorted[..i + 1])
         == ReadyAmong(stages, sorted[..i]) + (if ReadyToPush(stages, sorted[i]) then {sorted[i].id} else {})
  {
    assert sorted[..i + 1] == sorted[..i] + [sorted[i]];
  }

  lemma SeenAll(stages: seq<Stage>, sorted: seq<Stage>)
    requires multiset(sorted) == multiset(stages)
    ensures HopelessAmong(stages, sorted) == SkipIds(stages) && ReadyAmong(stages, sorted) == ReadyIds(stages)
  {
    assert forall s :: s in sorted <==> s in multiset(sorted);
    assert forall s :: s in stages <==> s in multiset(stages);
  }

  /** Each stage comes once, so its identifier is new. */
  lemma NewId(stages: seq<Stage>, sorted: seq<Stage>, i: nat)
    requires multiset(sorted) == multiset(stages) && UniqueIds(stages) && i < |sorted|
    ensures forall s :: s in sorted[..i] ==> s.id != sorted[i].id
    ensures sorted[i].id !in HopelessAmong(stages, sorted[..i]) && sorted[i].id !in ReadyAmong(stages, sorted[..i])
    ensures sorted[i] in stages
  {
    assert sorted[i] in multiset(sorted);
    forall s | s in sorted[..i]
      ensures s.id != sorted[i].id
    {
      Twice(stages, sorted, i, s);
    }
  }

  lemma Twice(stages: seq<Stage>, sorted: seq<Stage>, i: nat, s: Stage)
    requires multiset(sorted) == multiset(stages) && UniqueIds(stages) && i < |sorted| && s in sorted[..i]
    ensures s.id != sorted[i].id
  {
    Graph.PermutationDistinct(stages, sorted);
    var k :| 0 <= k < i && sorted[..i][k] == s;
    assert s in multiset(sorted) && sorted[i] in multiset(sorted);
    var a :| 0 <= a < |stages| && stages[a] == s;
    var b :| 0 <= b < |stages| && stages[b] == sorted[i];
  }

  /** The stage found by its name is the sorted one, with its original status. */
  lemma FoundByName(stages: seq<Stage>, ids: set<string>, s: Stage, k: int)
    requires Topo.UniqueNames(stages) && s in stages && s.id !in ids
    requires -1 <= k < |stages| && FirstNamed(Marked(stages, ids), s.name) == if k < 0 then None else Some(Marked(stages, ids)[k])
    requires forall i :: 0 <= i < (if k < 0 then |stages| else k) ==> Marked(stages, ids)[i].name != s.name
    ensures k >= 0 && stages[k] == s && Marked(stages, ids)[k] == s
  {
    var i :| 0 <= i < |stages| && stages[i] == s;
    assert Marked(stages, ids)[i].name == s.name;
  }

  lemma {:induction false} KeepDistinctIds(list: seq<Unit>, p: Unit -> bool)
    requires DistinctIds(list)
    ensures DistinctIds(Keep(list, p))
    decreases |list|
  {
    if list != [] {
      var front, last := list[..|list| - 1], list[|list| - 1];
      KeepDistinctIds(front, p);
      forall u | u in Keep(front, p)
        ensures u.id != last.id
      {
        InKeep(front, p, u);
      }
    }
  }

  lemma CollectStage(list: seq<Unit>, ids: set<string>, ready: seq<Unit>, stageID: string, group: seq<Unit>)
    requires DistinctIds(list) && Collected(list, ids, ready) && stageID !in ids
    requires DistinctIds(group) && forall u :: u in group <==> u in list && u.stageID == stageID
    ensures Collected(list, ids + {stageID}, ready + group)
  {
    forall a, b | a in ready && b in group
      ensures a.id != b.id
    {
      assert a in list && b in list && a.stageID != b.stageID;
    }
  }

  /** A ready stage is not among the skipped ones. */
  lemma ReadyNotSkipped(stages: seq<Stage>, id: string)
    requires UniqueIds(stages) && id in ReadyIds(stages)
    ensures id !in SkipIds(stages)
  {
    var s :| s in stages && ReadyToPush(stages, s) && s.id == id;
    MarkedAllDeps(stages, {}, s.dependsOn);
    forall t | t in stages && t.id == id
      ensures !Hopeless(stages, t)
    {
      var a :| 0 <= a < |stages| && stages[a] == s;
      var b :| 0 <= b < |stages| && stages[b] == t;
    }
  }

  /** Marking the hopeless stages changes exactly them. */
  lemma SkipIdsMarked(stages: seq<Stage>)
    requires UniqueIds(stages)
    ensures MarkedIds(stages, SkipIds(stages)) == SkipIds(stages)
  {
    forall s, t | s in stages && t in stages && s.id == t.id
      ensures s == t
    {
      var a :| 0 <= a < |stages| && stages[a] == s;
      var b :| 0 <= b < |stages| && stages[b] == t;
    }
  }
}
