/** Where units may run, said of nodes, jobs and units alone: what a node that is given a
    unit by a pull (AssignToNode) or by a cycle (scheduleOnce) answers to, and which units a
    pull and a cycle assign. */
module Placement {
  import opened Cascade
  import opened Cycle
  import opened Model
  import opened NodeFilter
  import opened StoreView
  import Topo

  // ---------- what a unit asks for ----------

  /** Stage k is the first one with that identifier. */
  ghost predicate FirstWithId(stages: seq<Stage>, id: string, k: int) {
    0 <= k < |stages| && stages[k].id == id && forall i :: 0 <= i < k ==> stages[i].id != id
  }

  ghost predicate NoneWithId(stages: seq<Stage>, id: string) {
    forall i :: 0 <= i < |stages| ==> stages[i].id != id
  }

  predicate RunsImage(j: Job) {
    j.image != "" || j.baseImage != ""
  }

  /** What the node reports is enough for the specification; what it does not report counts
      as enough. */
  ghost predicate Answers(cfg: Settings, n: Node, spec: ResourceSpec) {
    && (n.resources.Some? ==> cfg.fits(n.resources.value, spec.needs))
    && (n.capabilities.Some? ==> forall c :: c in spec.capabilities ==> c in n.capabilities.value)
  }

  ghost predicate AnswersIfAny(cfg: Settings, n: Node, spec: Option<ResourceSpec>) {
    spec.Some? ==> Answers(cfg, n, spec.value)
  }

  /** Jobs that run an image ask for the capability "container"; without a specification of
      their own they ask for no resources. */
  ghost predicate HostsImage(cfg: Settings, n: Node, j: Job, bare: bool) {
    RunsImage(j) ==>
      && (n.capabilities.Some? ==> "container" in n.capabilities.value)
      && (bare && n.resources.Some? ==> cfg.fits(n.resources.value, Resources(0, 0, 0)))
  }

  /** The owner of the job accepts the node, and the node the owner. */
  ghost predicate Accepts(cfg: Settings, nodes: map<string, Node>, j: Job, n: Node) {
    j.owner != "" ==>
      && (if n.id == j.owner then j.allowSelf else cfg.reach(j.owner, n.id))
      && j.owner !in n.blockList
      && (j.owner in nodes ==> n.id !in nodes[j.owner].blockList)
  }

  lemma {:induction false} StageSpecIs(stages: seq<Stage>, id: string, otherwise: Option<ResourceSpec>)
    ensures forall k :: FirstWithId(stages, id, k) ==> StageSpec(stages, id, otherwise) == stages[k].resources
    ensures NoneWithId(stages, id) ==> StageSpec(stages, id, otherwise) == otherwise
    decreases |stages|
  {
    if stages != [] && stages[0].id != id {
      StageSpecIs(stages[1..], id, otherwise);
      forall k | FirstWithId(stages, id, k)
        ensures StageSpec(stages, id, otherwise) == stages[k].resources
      {
        assert FirstWithId(stages[1..], id, k - 1);
      }
      assert NoneWithId(stages, id) ==> NoneWithId(stages[1..], id);
    }
  }

  /** The specification that counts: that of the unit's stage, else that of the job. */
  ghost predicate Counts(j: Job, stageID: string, spec: Option<ResourceSpec>) {
    && (forall k :: FirstWithId(j.stages, stageID, k) ==> spec == j.stages[k].resources)
    && (NoneWithId(j.stages, stageID) ==> spec == j.resources)
  }

  lemma SpecAnswers(cfg: Settings, n: Node, u: Unit, j: Job) returns (spec: Option<ResourceSpec>)
    ensures Counts(j, u.stageID, spec) && (SpecFor(u, j).Some? <==> spec.Some? || RunsImage(j))
    ensures AnswersIfAny(cfg, n, SpecFor(u, j)) <==> AnswersIfAny(cfg, n, spec) && HostsImage(cfg, n, j, spec.None?)
  {
    spec := StageSpec(j.stages, u.stageID, j.resources);
    StageSpecIs(j.stages, u.stageID, j.resources);
    if RunsImage(j) {
      var base := if spec.Some? then spec.value else ResourceSpec(Resources(0, 0, 0), []);
      assert forall c :: c in base.capabilities + ["container"] <==> c in base.capabilities || c == "container";
    }
  }

  lemma {:induction false} SomeFirst(stages: seq<Stage>, id: string)
    ensures NoneWithId(stages, id) || exists k :: FirstWithId(stages, id, k)
    decreases |stages|
  {
    if stages != [] {
      SomeFirst(stages[1..], id);
      if stages[0].id == id {
        assert FirstWithId(stages, id, 0);
      } else if !NoneWithId(stages[1..], id) {
        var k :| FirstWithId(stages[1..], id, k);
        assert FirstWithId(stages, id, k + 1);
      } else {
        assert forall i :: 1 <= i < |stages| ==> stages[i] == stages[1..][i - 1];
      }
    }
  }

  /** One specification counts for a unit. */
  lemma OneCounts(j: Job, stageID: string, a: Option<ResourceSpec>, b: Option<ResourceSpec>)
    requires Counts(j, stageID, a) && Counts(j, stageID, b)
    ensures a == b
  {
    SomeFirst(j.stages, stageID);
    if k :| FirstWithId(j.stages, stageID, k) {
      assert a == j.stages[k].resources;
    }
  }

  // ---------- the two filters ----------

  /** What the pull test accepts, with the specification `spec` that counts. */
  lemma PullAccepts(cfg: Settings, nodes: map<string, Node>, n: Node, u: Unit, j: Job, spec: Option<ResourceSpec>)
    requires Counts(j, u.stageID, spec)
    ensures PassesOne(RequestFor(cfg, nodes, u, j), n) <==>
      && (n.status == Online || n.status == Busy)
      && (spec.Some? ==> Answers(cfg, n, spec.value)) && HostsImage(cfg, n, j, spec.None?)
      && Accepts(cfg, nodes, j, n)
  {
    var s := SpecAnswers(cfg, n, u, j);
    OneCounts(j, u.stageID, s, spec);
  }

  /** What the push pipeline accepts: resources must be reported if any are asked for, and
      block lists count for registered owners only. */
  lemma PushAccepts(cfg: Settings, nodes: map<string, Node>, n: Node, u: Unit, j: Job, spec: Option<ResourceSpec>)
    requires Counts(j, u.stageID, spec)
    ensures Pipeline(RequestFor(cfg, nodes, u, j))(n) <==>
      && (n.status == Online || n.status == Busy)
      && (spec.Some? ==> n.resources.Some? && Answers(cfg, n, spec.value))
      && (RunsImage(j) ==> n.resources.Some?) && HostsImage(cfg, n, j, spec.None?)
      && (j.owner != "" ==>
            && (if n.id == j.owner then j.allowSelf else cfg.reach(j.owner, n.id))
            && (j.owner in nodes ==> j.owner !in n.blockList && n.id !in nodes[j.owner].blockList))
  {
    var s := SpecAnswers(cfg, n, u, j);
    OneCounts(j, u.stageID, s, spec);
    var q := RequestFor(cfg, nodes, u, j);
    assert HasResources(q)(n) && HasCapabilities(q)(n) <==>
      (q.spec.Some? ==> n.resources.Some?) && AnswersIfAny(cfg, n, q.spec);
    assert IsTrusted(q)(n) <==> (j.owner != "" ==> (if n.id == j.owner then j.allowSelf else cfg.reach(j.owner, n.id)));
    assert NotBlocked(q)(n) <==>
      (j.owner != "" && j.owner in nodes ==> j.owner !in n.blockList && n.id !in nodes[j.owner].blockList);
  }

  // ---------- what a pull gives ----------

  ghost predicate DoneAt(stages: seq<Stage>, name: string, m: int) {
    0 <= m < |stages| && stages[m].name == name && stages[m].status == StageCompleted
    && forall i :: 0 <= i < m ==> stages[i].name != name
  }

  /** The first stage called `name` is completed. */
  ghost predicate Done(stages: seq<Stage>, name: string) {
    exists m :: DoneAt(stages, name, m)
  }

  lemma DoneBehind(stages: seq<Stage>, name: string, m: int)
    requires stages != [] && stages[0].name != name
    ensures DoneAt(stages, name, m) <==> DoneAt(stages[1..], name, m - 1)
  {
    assert forall i :: 0 <= i < |stages| - 1 ==> stages[1..][i] == stages[i + 1];
    if DoneAt(stages[1..], name, m - 1) {
      forall i | 0 <= i < m
        ensures stages[i].name != name
      {
        if i > 0 { assert stages[1..][i - 1].name != name; }
      }
    }
  }

  lemma {:induction false} DoneIs(stages: seq<Stage>, name: string)
    ensures DepCompleted(stages, name) <==> Done(stages, name)
    decreases |stages|
  {
    if stages != [] {
      if stages[0].name == name {
        assert DepCompleted(stages, name) ==> DoneAt(stages, name, 0);
      } else {
        DoneIs(stages[1..], name);
        forall m
          ensures DoneAt(stages, name, m) <==> DoneAt(stages[1..], name, m - 1)
        {
          DoneBehind(stages, name, m);
        }
        if Done(stages[1..], name) {
          var m :| DoneAt(stages[1..], name, m);
          assert DoneAt(stages, name, m + 1);
        }
      }
    }
  }

  ghost predicate AllDone(stages: seq<Stage>, names: seq<string>) {
    forall d :: d in names ==> Done(stages, d)
  }

  lemma AllDoneIs(stages: seq<Stage>, names: seq<string>)
    ensures DepsMet(stages, names) <==> AllDone(stages, names)
  {
    forall d | d in names
      ensures DepCompleted(stages, d) <==> Done(stages, d)
    {
      DoneIs(stages, d);
    }
  }

  predicate GoesOn(j: Job) {
    j.status == JobPending || j.status == JobRunning
  }

  /** `asked` is the specification `spec`, with the capability of running containers where
      the job needs it. */
  ghost predicate AsksFor(j: Job, stageID: string, spec: Option<ResourceSpec>, asked: Option<ResourceSpec>) {
    && Counts(j, stageID, spec)
    && asked == if !RunsImage(j) then spec else
         match spec
         case None => Some(ResourceSpec(Resources(0, 0, 0), ["container"]))
         case Some(own) => Some(ResourceSpec(own.needs, own.capabilities + ["container"]))
  }

  lemma AskedIs(u: Unit, j: Job)
    ensures exists spec :: AsksFor(j, u.stageID, spec, SpecFor(u, j))
    ensures forall spec, asked :: AsksFor(j, u.stageID, spec, asked) ==> asked == SpecFor(u, j)
  {
    var spec := StageSpec(j.stages, u.stageID, j.resources);
    StageSpecIs(j.stages, u.stageID, j.resources);
    assert [] + ["container"] == ["container"];
    assert AsksFor(j, u.stageID, spec, SpecFor(u, j));
    forall other, asked | AsksFor(j, u.stageID, other, asked)
      ensures asked == SpecFor(u, j)
    {
      OneCounts(j, u.stageID, spec, other);
    }
  }

  /** The node may take the unit by a pull. */
  ghost predicate MayTake(cfg: Settings, nodes: map<string, Node>, db: Db, nodeID: string, u: Unit,
                          spec: Option<ResourceSpec>, asked: Option<ResourceSpec>)
  {
    && nodeID in nodes && u.status == Pending && u.jobID in db.jobs
    && var n, j := nodes[nodeID], db.jobs[u.jobID];
    && GoesOn(j) && (n.status == Online || n.status == Busy)
    && (j.jobType == Workflow ==>
          exists k :: FirstWithId(j.stages, u.stageID, k) && AllDone(j.stages, j.stages[k].dependsOn))
    && AsksFor(j, u.stageID, spec, asked) && AnswersIfAny(cfg, n, spec) && HostsImage(cfg, n, j, spec.None?)
    && Accepts(cfg, nodes, j, n) && cfg.score(n, asked) > -1.0
  }

  lemma MayTakeIs(cfg: Settings, nodes: map<string, Node>, db: Db, nodeID: string, u: Unit)
    ensures Pullable(cfg, nodes, db, nodeID, u) <==> exists spec, asked :: MayTake(cfg, nodes, db, nodeID, u, spec, asked)
    ensures forall spec, asked :: MayTake(cfg, nodes, db, nodeID, u, spec, asked) ==>
      asked == SpecFor(u, db.jobs[u.jobID])
  {
    if nodeID in nodes && u.jobID in db.jobs {
      var j := db.jobs[u.jobID];
      AskedIs(u, j);
      var spec :| AsksFor(j, u.stageID, spec, SpecFor(u, j));
      ReadyToPullIs(j.stages, u.stageID);
      PullAccepts(cfg, nodes, nodes[nodeID], u, j, spec);
      assert Pullable(cfg, nodes, db, nodeID, u) ==> MayTake(cfg, nodes, db, nodeID, u, spec, SpecFor(u, j));
      forall other, asked | MayTake(cfg, nodes, db, nodeID, u, other, asked)
        ensures Pullable(cfg, nodes, db, nodeID, u)
      {
        PullAccepts(cfg, nodes, nodes[nodeID], u, j, other);
      }
    }
  }

  lemma ReadyToPullIs(stages: seq<Stage>, stageID: string)
    ensures ReadyToPull(stages, stageID) <==>
      exists k :: FirstWithId(stages, stageID, k) && AllDone(stages, stages[k].dependsOn)
  {
    forall k | 0 <= k < |stages|
      ensures DepsMet(stages, stages[k].dependsOn) <==> AllDone(stages, stages[k].dependsOn)
    {
      AllDoneIs(stages, stages[k].dependsOn);
    }
    if ReadyToPull(stages, stageID) {
      var k :| 0 <= k < |stages| && stages[k].id == stageID && (forall i :: 0 <= i < k ==> stages[i].id != stageID)
        && DepsMet(stages, stages[k].dependsOn);
      assert FirstWithId(stages, stageID, k);
    }
    if k :| FirstWithId(stages, stageID, k) && AllDone(stages, stages[k].dependsOn) {
      assert DepsMet(stages, stages[k].dependsOn);
    }
  }

  /** A pull gives the node a waiting unit that it may take, with the highest score, and
      nothing exactly when it may take none. */
  lemma PulledExactly(cfg: Settings, nodes: map<string, Node>, before: Db, after: Db, nodeID: string, given: Option<Unit>)
    requires PullDone(cfg, nodes, before, after, nodeID, given)
    ensures given.None? <==>
      forall u, spec, asked :: u in before.units ==> !MayTake(cfg, nodes, before, nodeID, before.units[u], spec, asked)
    ensures given.None? ==> after == before
    ensures given.Some? ==>
      var u := given.value.id;
      && u in before.units && after == before.(units := before.units[u := given.value])
      && given.value == before.units[u].(assignedNode := nodeID, status := Assigned)
      && exists spec, asked :: MayTake(cfg, nodes, before, nodeID, before.units[u], spec, asked)
           && forall v, other, wish :: v in before.units && MayTake(cfg, nodes, before, nodeID, before.units[v], other, wish) ==>
                cfg.score(nodes[nodeID], wish) <= cfg.score(nodes[nodeID], asked)
  {
    forall u | u in before.units
      ensures Pullable(cfg, nodes, before, nodeID, before.units[u]) <==>
        exists spec, asked :: MayTake(cfg, nodes, before, nodeID, before.units[u], spec, asked)
      ensures forall spec, asked :: MayTake(cfg, nodes, before, nodeID, before.units[u], spec, asked) ==>
        asked == SpecFor(before.units[u], before.jobs[before.units[u].jobID])
    {
      MayTakeIs(cfg, nodes, before, nodeID, before.units[u]);
    }
  }

  /** So a node that pulls a unit answers to the specification of the unit's stage, or else
      of its job, and reports containers if the job runs an image. */
  lemma PulledNodeAnswers(cfg: Settings, nodes: map<string, Node>, before: Db, after: Db, nodeID: string, g: Unit)
    requires PullDone(cfg, nodes, before, after, nodeID, Some(g))
    ensures nodeID in nodes && g.jobID in before.jobs
    ensures
      var n, j := nodes[nodeID], before.jobs[g.jobID];
      && (forall k :: FirstWithId(j.stages, g.stageID, k) ==> AnswersIfAny(cfg, n, j.stages[k].resources))
      && (NoneWithId(j.stages, g.stageID) ==> AnswersIfAny(cfg, n, j.resources))
      && (RunsImage(j) && n.capabilities.Some? ==> "container" in n.capabilities.value)
  {
    PulledExactly(cfg, nodes, before, after, nodeID, Some(g));
  }

  // ---------- what a cycle assigns ----------

  /** The node may be given the unit by a cycle. */
  ghost predicate MayGet(cfg: Settings, nodes: map<string, Node>, j: Job, stageID: string, id: string,
                         spec: Option<ResourceSpec>, asked: Option<ResourceSpec>)
  {
    && id in nodes && AsksFor(j, stageID, spec, asked)
    && var n := nodes[id];
    && (n.status == Online || n.status == Busy)
    && (spec.Some? ==> n.resources.Some? && Answers(cfg, n, spec.value))
    && (RunsImage(j) ==> n.resources.Some?) && HostsImage(cfg, n, j, spec.None?)
    && (j.owner != "" ==>
          && (if n.id == j.owner then j.allowSelf else cfg.reach(j.owner, n.id))
          && (j.owner in nodes ==> j.owner !in n.blockList && n.id !in nodes[j.owner].blockList))
    && cfg.score(n, asked) > 0.0
  }

  lemma MayGetIs(cfg: Settings, nodes: map<string, Node>, u: Unit, j: Job, id: string)
    ensures Suitable(cfg, nodes, u, j, id) <==> exists spec, asked :: MayGet(cfg, nodes, j, u.stageID, id, spec, asked)
    ensures forall spec, asked :: MayGet(cfg, nodes, j, u.stageID, id, spec, asked) ==> asked == SpecFor(u, j)
  {
    if id in nodes {
      AskedIs(u, j);
      var spec :| AsksFor(j, u.stageID, spec, SpecFor(u, j));
      PushAccepts(cfg, nodes, nodes[id], u, j, spec);
      assert Suitable(cfg, nodes, u, j, id) ==> MayGet(cfg, nodes, j, u.stageID, id, spec, SpecFor(u, j));
      forall other, asked | MayGet(cfg, nodes, j, u.stageID, id, other, asked)
        ensures Suitable(cfg, nodes, u, j, id)
      {
        PushAccepts(cfg, nodes, nodes[id], u, j, other);
      }
    }
  }

  /** A unit goes to a node of the highest score among those that may get it, and stays
      exactly when no node may. */
  ghost predicate GoesToBest(cfg: Settings, nodes: map<string, Node>, j: Job, a: Unit, b: Unit) {
    if exists id, spec, asked :: MayGet(cfg, nodes, j, a.stageID, id, spec, asked) then
      && b.status == Assigned && b.stageID == a.stageID && b.jobID == a.jobID && b.retryCount == a.retryCount
      && exists spec, asked :: MayGet(cfg, nodes, j, a.stageID, b.assignedNode, spec, asked)
           && forall id, other, wish :: MayGet(cfg, nodes, j, a.stageID, id, other, wish) ==>
                cfg.score(nodes[id], wish) <= cfg.score(nodes[b.assignedNode], asked)
    else b == a
  }

  lemma PushedGoesToBest(cfg: Settings, nodes: map<string, Node>, j: Job, a: Unit, b: Unit)
    requires Pushed(cfg, nodes, j, a, b)
    ensures GoesToBest(cfg, nodes, j, a, b)
  {
    var u := InMemory(a);
    forall id
      ensures Suitable(cfg, nodes, u, j, id) <==> exists spec, asked :: MayGet(cfg, nodes, j, a.stageID, id, spec, asked)
      ensures forall spec, asked :: MayGet(cfg, nodes, j, a.stageID, id, spec, asked) ==> asked == SpecFor(u, j)
    {
      MayGetIs(cfg, nodes, u, j, id);
    }
    if exists id :: Suitable(cfg, nodes, u, j, id) {
      var best :| Best(cfg, nodes, u, j, best) && b == GivenTo(a, best);
      assert Suitable(cfg, nodes, u, j, best);
      var spec, asked :| MayGet(cfg, nodes, j, a.stageID, best, spec, asked);
      forall id, other, wish | MayGet(cfg, nodes, j, a.stageID, id, other, wish)
        ensures cfg.score(nodes[id], wish) <= cfg.score(nodes[best], asked)
      {
        assert Suitable(cfg, nodes, u, j, id);
      }
    } else {
      forall id, spec, asked
        ensures !MayGet(cfg, nodes, j, a.stageID, id, spec, asked)
      {
        assert !Suitable(cfg, nodes, u, j, id);
      }
    }
  }

  /** Pending, or failed for long enough with retries left. */
  predicate Waits(cfg: Settings, u: Unit, now: int) {
    u.status == Pending
    || (u.status == UnitStatus.Failed && u.retryCount < cfg.maxRetries && now >= u.completedAt + cfg.reassignDelay)
  }

  /** A stage of the job with that identifier, not ended, after completed ones only. */
  ghost predicate StageWaits(j: Job, stageID: string) {
    exists k :: 0 <= k < |j.stages| && j.stages[k].id == stageID && AllDone(j.stages, j.stages[k].dependsOn)
      && j.stages[k].status != StageCompleted && j.stages[k].status != StageFailed && j.stages[k].status != StageSkipped
  }

  ghost predicate StageHopeless(j: Job, stageID: string) {
    exists k, d, m :: 0 <= k < |j.stages| && j.stages[k].id == stageID && d in j.stages[k].dependsOn
      && j.stages[k].status != StageCompleted && j.stages[k].status != StageFailed && j.stages[k].status != StageSkipped
      && 0 <= m < |j.stages| && j.stages[m].name == d && j.stages[m].status == StageFailed
  }

  lemma StageWaitsIs(j: Job, stageID: string)
    ensures stageID in ReadyIds(j.stages) <==> StageWaits(j, stageID)
  {
    forall k | 0 <= k < |j.stages|
      ensures DepsMet(j.stages, j.stages[k].dependsOn) <==> AllDone(j.stages, j.stages[k].dependsOn)
    {
      AllDoneIs(j.stages, j.stages[k].dependsOn);
    }
    if stageID in ReadyIds(j.stages) {
      var s :| s in j.stages && ReadyToPush(j.stages, s) && s.id == stageID;
      var k :| 0 <= k < |j.stages| && j.stages[k] == s;
    }
    if StageWaits(j, stageID) {
      var k :| 0 <= k < |j.stages| && j.stages[k].id == stageID && AllDone(j.stages, j.stages[k].dependsOn)
        && j.stages[k].status != StageCompleted && j.stages[k].status != StageFailed && j.stages[k].status != StageSkipped;
      assert ReadyToPush(j.stages, j.stages[k]) && j.stages[k] in j.stages;
    }
  }

  lemma {:induction false} FirstOfName(stages: seq<Stage>, m: int)
    requires Topo.UniqueNames(stages) && 0 <= m < |stages|
    ensures FirstNamed(stages, stages[m].name) == Some(stages[m])
    decreases |stages|
  {
    if m > 0 {
      assert stages[0].name != stages[m].name;
      assert forall i :: 0 <= i < |stages[1..]| ==> stages[1..][i] == stages[i + 1];
      FirstOfName(stages[1..], m - 1);
    }
  }

  lemma StageHopelessIs(j: Job, stageID: string)
    requires Topo.UniqueNames(j.stages)
    ensures stageID in SkipIds(j.stages) <==> StageHopeless(j, stageID)
  {
    if stageID in SkipIds(j.stages) { HopelessIsShown(j, stageID); }
    if StageHopeless(j, stageID) { HopelessIsSkipped(j, stageID); }
  }

  lemma HopelessIsShown(j: Job, stageID: string)
    requires stageID in SkipIds(j.stages)
    ensures StageHopeless(j, stageID)
  {
    var s :| s in j.stages && Hopeless(j.stages, s) && s.id == stageID;
    var k :| 0 <= k < |j.stages| && j.stages[k] == s;
    var d :| d in s.dependsOn && DepFailed(j.stages, d);
    var m :| 0 <= m < |j.stages| && j.stages[m] == FirstNamed(j.stages, d).value;
    assert j.stages[k].id == stageID && d in j.stages[k].dependsOn && j.stages[m].name == d;
  }

  lemma HopelessIsSkipped(j: Job, stageID: string)
    requires Topo.UniqueNames(j.stages) && StageHopeless(j, stageID)
    ensures stageID in SkipIds(j.stages)
  {
    var k, d, m :| 0 <= k < |j.stages| && j.stages[k].id == stageID && d in j.stages[k].dependsOn
      && j.stages[k].status != StageCompleted && j.stages[k].status != StageFailed && j.stages[k].status != StageSkipped
      && 0 <= m < |j.stages| && j.stages[m].name == d && j.stages[m].status == StageFailed;
    FirstOfName(j.stages, m);
    assert DepFailed(j.stages, d);
    assert Hopeless(j.stages, j.stages[k]) && j.stages[k] in j.stages;
  }

  /** What a cycle does to a unit that waits: in a workflow with a valid graph, nothing unless
      its stage waits or is hopeless; else it goes to a best node. */
  ghost predicate WaiterServed(cfg: Settings, nodes: map<string, Node>, j: Job, a: Unit, b: Unit) {
    if j.jobType != Workflow then GoesToBest(cfg, nodes, j, a, b)
    else if !Topo.Sortable(j.stages) then b == a
    else if StageHopeless(j, a.stageID) then b.status == if a.status == Pending then Cancelled else a.status
    else if StageWaits(j, a.stageID) then GoesToBest(cfg, nodes, j, a, b)
    else b == a
  }

  /** A unit that no node holds changes in a cycle only if its job goes on; a waiting one
      is served, and any other is cancelled at most, with a hopeless stage. */
  lemma CycledExactly(cfg: Settings, nodes: map<string, Node>, before: Db, after: Db, message: string, now: int, u: string)
    requires CycleDone(cfg, nodes, before, after, message, now) && u in before.units
    requires before.units[u].status != Assigned && before.units[u].status != Running
    ensures u in after.units
    ensures before.units[u].jobID !in before.jobs || !GoesOn(before.jobs[before.units[u].jobID]) ==>
      after.units[u] == before.units[u]
    ensures before.units[u].jobID in before.jobs && GoesOn(before.jobs[before.units[u].jobID]) ==>
      if Waits(cfg, before.units[u], now)
      then WaiterServed(cfg, nodes, before.jobs[before.units[u].jobID], before.units[u], after.units[u])
      else after.units[u] == before.units[u]
  {
    var a, b := before.units[u], after.units[u];
    var mid := before.(units := Reclaimed(before.units, nodes, message, now));
    assert mid.units[u] == a;
    assert UnitCycled(cfg, nodes, mid, a, b, now);
    if a.jobID in before.jobs && GoesOn(before.jobs[a.jobID]) {
      ServedIs(cfg, nodes, mid, a, b, now);
    }
  }

  lemma ServedIs(cfg: Settings, nodes: map<string, Node>, db: Db, a: Unit, b: Unit, now: int)
    requires a.jobID in db.jobs && GoesOn(db.jobs[a.jobID]) && a in db.units.Values && UnitCycled(cfg, nodes, db, a, b, now)
    requires a.status != Assigned && a.status != Running
    ensures if Waits(cfg, a, now) then WaiterServed(cfg, nodes, db.jobs[a.jobID], a, b) else b == a
  {
    var j := db.jobs[a.jobID];
    StageWaitsIs(j, a.stageID);
    if Topo.Sortable(j.stages) { StageHopelessIs(j, a.stageID); }
    if Waits(cfg, a, now) {
      var id :| id in db.units && db.units[id] == a;
      assert Visited(cfg, db, a.jobID, now);
      if Pushed(cfg, nodes, j, a, b) { PushedGoesToBest(cfg, nodes, j, a, b); }
    }
  }

  /** So a node that a cycle gives a unit reports resources that are enough for the
      specification of the unit's stage, or else of its job, and all that it asks for. */
  lemma PushedNodeAnswers(cfg: Settings, nodes: map<string, Node>, before: Db, after: Db, message: string, now: int, u: string)
    requires CycleDone(cfg, nodes, before, after, message, now) && u in before.units && u in after.units
    requires before.units[u].status != Assigned && before.units[u].status != Running && after.units[u].status == Assigned
    ensures before.units[u].jobID in before.jobs && after.units[u].assignedNode in nodes
    ensures
      var n, j, stageID := nodes[after.units[u].assignedNode], before.jobs[before.units[u].jobID], before.units[u].stageID;
      && (forall k :: FirstWithId(j.stages, stageID, k) && j.stages[k].resources.Some? ==>
            n.resources.Some? && Answers(cfg, n, j.stages[k].resources.value))
      && (NoneWithId(j.stages, stageID) && j.resources.Some? ==> n.resources.Some? && Answers(cfg, n, j.resources.value))
      && (RunsImage(j) && n.capabilities.Some? ==> "container" in n.capabilities.value)
  {
    CycledExactly(cfg, nodes, before, after, message, now, u);
    var j, a, b := before.jobs[before.units[u].jobID], before.units[u], after.units[u];
    assert GoesToBest(cfg, nodes, j, a, b);
    var spec, asked :| MayGet(cfg, nodes, j, a.stageID, b.assignedNode, spec, asked);
  }

  /** A unit that a node holds stays there unless its stage is hopeless; one whose node is
      gone fails, and may only be given to another node at once if there is no delay. */
  lemma HeldExactly(cfg: Settings, nodes: map<string, Node>, before: Db, after: Db, message: string, now: int, u: string)
    requires CycleDone(cfg, nodes, before, after, message, now) && u in before.units
    requires before.units[u].status == Assigned || before.units[u].status == Running
    ensures u in after.units
    ensures
      var a, b := before.units[u], after.units[u];
      if a.assignedNode in nodes && nodes[a.assignedNode].status != Offline then
        b == a || (b.status == Cancelled && a.jobID in before.jobs && before.jobs[a.jobID].jobType == Workflow
                   && StageHopeless(before.jobs[a.jobID], a.stageID))
      else cfg.reassignDelay > 0 ==>
        b.status == UnitStatus.Failed && b.errorMessage == message && b.completedAt == now && b.retryCount == a.retryCount
  {
    var mid := before.(units := Reclaimed(before.units, nodes, message, now));
    ReclaimedUnit(cfg, before.units, nodes, message, now, u);
    if !Eligible(cfg, mid.units[u], now) { NotServed(cfg, nodes, mid, mid.units[u], after.units[u], now); }
  }

  lemma ReclaimedUnit(cfg: Settings, units: map<string, Unit>, nodes: map<string, Node>, message: string, now: int, u: string)
    requires u in units && (units[u].status == Assigned || units[u].status == Running)
    ensures
      var a, b := units[u], Reclaimed(units, nodes, message, now)[u];
      && b.jobID == a.jobID && b.stageID == a.stageID && b.retryCount == a.retryCount
      && if a.assignedNode in nodes && nodes[a.assignedNode].status != Offline then b == a && !Eligible(cfg, b, now)
         else b.status == UnitStatus.Failed && b.errorMessage == message && b.completedAt == now
              && (cfg.reassignDelay > 0 ==> !Eligible(cfg, b, now))
  {
  }

  lemma NotServed(cfg: Settings, nodes: map<string, Node>, db: Db, a: Unit, b: Unit, now: int)
    requires UnitCycled(cfg, nodes, db, a, b, now) && !Eligible(cfg, a, now)
    ensures b == a || (Cancellable(a.status) && b.status == Cancelled && a.jobID in db.jobs
                       && db.jobs[a.jobID].jobType == Workflow && StageHopeless(db.jobs[a.jobID], a.stageID))
  {
    if a.jobID in db.jobs && Topo.Sortable(db.jobs[a.jobID].stages) {
      StageHopelessIs(db.jobs[a.jobID], a.stageID);
    }
  }

  /** The stage s of job j becomes t in a cycle: at most it is skipped, as a hopeless one of
      a workflow that goes on, and if the job is visited it is then. */
  ghost predicate StageMoves(j: Job, s: Stage, t: Stage, visited: bool) {
    && (t != s ==> t == s.(status := StageSkipped) && s.status != StageCompleted && s.status != StageFailed
                   && GoesOn(j) && j.jobType == Workflow && StageHopeless(j, s.id))
    && (visited && j.jobType == Workflow && Topo.Sortable(j.stages) && StageHopeless(j, s.id)
        && s.status != StageCompleted && s.status != StageFailed
        ==> t.status == StageSkipped)
  }

  ghost predicate SomeUnitWaits(cfg: Settings, units: map<string, Unit>, jobID: string, now: int) {
    exists u :: u in units && units[u].jobID == jobID && Waits(cfg, units[u], now)
  }

  /** The jobs that go on and have a waiting unit are visited. */
  lemma StagesCycledExactly(cfg: Settings, nodes: map<string, Node>, before: Db, after: Db, message: string, now: int,
                            jobID: string, k: nat)
    requires CycleDone(cfg, nodes, before, after, message, now) && jobID in before.jobs && k < |before.jobs[jobID].stages|
    ensures jobID in after.jobs && |after.jobs[jobID].stages| == |before.jobs[jobID].stages|
    ensures StageMoves(before.jobs[jobID], before.jobs[jobID].stages[k], after.jobs[jobID].stages[k],
                       GoesOn(before.jobs[jobID]) && SomeUnitWaits(cfg, before.units, jobID, now))
  {
    var mid := before.(units := Reclaimed(before.units, nodes, message, now));
    StageCycled(cfg, mid, jobID, after.jobs[jobID], now, k);
    if SomeUnitWaits(cfg, before.units, jobID, now) {
      var u :| u in before.units && before.units[u].jobID == jobID && Waits(cfg, before.units[u], now);
      WaitsOn(cfg, before.units, nodes, message, now, u);
    }
  }

  lemma WaitsOn(cfg: Settings, units: map<string, Unit>, nodes: map<string, Node>, message: string, now: int, u: string)
    requires u in units && Waits(cfg, units[u], now)
    ensures Reclaimed(units, nodes, message, now)[u] == units[u] && Eligible(cfg, units[u], now)
  {
  }

  lemma StageCycled(cfg: Settings, db: Db, jobID: string, after: Job, now: int, k: nat)
    requires jobID in db.jobs && k < |db.jobs[jobID].stages| && JobCycled(cfg, db, jobID, after, now)
    ensures |after.stages| == |db.jobs[jobID].stages|
    ensures StageMoves(db.jobs[jobID], db.jobs[jobID].stages[k], after.stages[k], Visited(cfg, db, jobID, now))
  {
    if Topo.Sortable(db.jobs[jobID].stages) { StageHopelessIs(db.jobs[jobID], db.jobs[jobID].stages[k].id); }
  }
}
