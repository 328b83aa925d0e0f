/** A run in which one stale report breaks the order of a workflow: a node pulls and
    completes the unit of the first stage, pulls the unit of the second, and then reports
    the first unit as running again. */
module StaleRun {
  import opened Cascade
  import opened Cycle
  import opened Handlers
  import opened Model
  import opened Propagation
  import opened StoreView
  import opened WorkflowRuns
  import SchedulerRuns

  /** The node, the job and its two stages, of which `second` depends on `first`. */
  datatype Stale = Stale(node: string, jobID: string, first: string, second: string, maxRetries: nat) {
    function Stages(s: StageStatus): seq<Stage> {
      [Stage(first, first, [], s, None), Stage(second, second, [first], StagePending, None)]
    }

    function JobWith(s: StageStatus): Job {
      Job(jobID, Workflow, "", false, "", "", None, Stages(s), JobPending, 0, 0)
    }

    function First(): string { UnitID(first, 0) }
    function Second(): string { UnitID(second, 0) }

    function Held(stageID: string, s: UnitStatus): Unit {
      NewUnit(stageID, jobID, 0).(assignedNode := node, status := s)
    }

    function DbWith(u: Unit, v: Unit, s: StageStatus): Db {
      EmptyDb.(jobs := map[jobID := JobWith(s)], units := map[First() := u][Second() := v])
    }

    function Waiting(stageID: string): Unit { NewUnit(stageID, jobID, 0) }

    function DbAt(k: nat): Db {
      match k
      case 0 => EmptyDb
      case 1 => DbWith(Waiting(first), Waiting(second), StagePending)
      case 2 => DbWith(Held(first, Assigned), Waiting(second), StagePending)
      case 3 => DbWith(Held(first, UnitStatus.Completed), Waiting(second), StageCompleted)
      case 4 => DbWith(Held(first, UnitStatus.Completed), Held(second, Assigned), StageCompleted)
      case _ => DbWith(Held(first, Running), Held(second, Assigned), StageRunning)
    }

    function Nodes(): map<string, Node> { map[node := Node(node, Online, None, None, [])] }

    function WorldAt(k: nat): World { World(DbAt(k), Nodes()) }

    function Config(): Settings {
      Settings(maxRetries, 0, (r: Resources, s: Resources) => true, (x: string, y: string) => true,
               (n: Node, s: Option<ResourceSpec>) => 1.0)
    }

    function OneEach(): Stage -> Option<nat> { (s: Stage) => Some(1) }

    function StepAt(k: nat): Step {
      match k
      case 0 => Submit(JobWith(StagePending), OneEach())
      case 1 => Pull(Config(), node, Some(Held(first, Assigned)))
      case 2 => Report(First(), UnitStatus.Completed, 0, "", 0)
      case 3 => Pull(Config(), node, Some(Held(second, Assigned)))
      case _ => Report(First(), Running, 0, "", 0)
    }

    ghost predicate Goes(k: nat) {
      Next(maxRetries, WorldAt(k), StepAt(k), WorldAt(k + 1))
    }
  }

  lemma UnitsDiffer(l: Stale)
    requires l.first != l.second
    ensures l.First() != l.Second() && l.First() != ""
  {
    if l.First() == l.Second() { UnitIDsDiffer(l.first, 0, l.second, 0); }
  }

  lemma SubmitGoes(l: Stale)
    requires l.first != l.second
    ensures l.Goes(0)
  {
    var stages := l.Stages(StagePending);
    OneUnit(l.first, l.jobID);
    OneUnit(l.second, l.jobID);
    assert stages[..1] == [stages[0]] && stages[..1][..0] == [];
    assert UnitsOf([], l.jobID, l.OneEach()) == map[];
    assert UnitsOf(stages[..1], l.jobID, l.OneEach()) == map[l.First() := l.Waiting(l.first)];
    assert UnitsOf(stages, l.jobID, l.OneEach()) == map[l.First() := l.Waiting(l.first)][l.Second() := l.Waiting(l.second)];
    assert l.DbAt(1) == EmptyDb.(units := map[] + UnitsOf(stages, l.jobID, l.OneEach()), jobs := map[][l.jobID := l.JobWith(StagePending)]);
  }

  lemma OneUnit(stageID: string, jobID: string)
    ensures UnitsOfStage(stageID, jobID, 1) == map[UnitID(stageID, 0) := NewUnit(stageID, jobID, 0)]
  {
    assert UnitsOfStage(stageID, jobID, 0) == map[];
  }

  lemma StageNamed(l: Stale, s: StageStatus)
    ensures FirstNamed(l.Stages(s), l.first) == Some(l.Stages(s)[0])
  {
  }

  lemma FirstIsReady(l: Stale, s: StageStatus)
    ensures ReadyToPull(l.Stages(s), l.first)
  {
    assert DepsMet(l.Stages(s), l.Stages(s)[0].dependsOn);
  }

  lemma SecondIsReady(l: Stale, s: StageStatus)
    requires l.first != l.second
    ensures ReadyToPull(l.Stages(s), l.second) <==> s == StageCompleted
  {
    var stages := l.Stages(s);
    StageNamed(l, s);
    assert l.first in stages[1].dependsOn;
    assert DepsMet(stages, stages[1].dependsOn) <==> s == StageCompleted;
    assert stages[1].id == l.second && stages[0].id == l.first;
  }

  /** The node may pull the units that are waiting in a stage that is ready. */
  lemma MayPull(l: Stale, db: Db, u: Unit, s: StageStatus)
    requires db.jobs == map[l.jobID := l.JobWith(s)] && u.jobID == l.jobID
    ensures Pullable(l.Config(), l.Nodes(), db, l.node, u) <==> u.status == Pending && ReadyToPull(l.Stages(s), u.stageID)
  {
  }

  lemma PullGoes(l: Stale, u: Unit, v: Unit, s: StageStatus, id: string)
    requires l.first != l.second && u.id == l.First() && v.id == l.Second() && id in {u.id, v.id}
    requires u.stageID == l.first && v.stageID == l.second && u.jobID == v.jobID == l.jobID
    requires l.DbWith(u, v, s).units[id].status == Pending && (id == v.id ==> s == StageCompleted)
    ensures
      var before := l.DbWith(u, v, s);
      var given := before.units[id].(assignedNode := l.node, status := Assigned);
      PullDone(l.Config(), l.Nodes(), before, before.(units := before.units[id := given]), l.node, Some(given))
  {
    var before := l.DbWith(u, v, s);
    UnitsDiffer(l);
    FirstIsReady(l, s);
    SecondIsReady(l, s);
    MayPull(l, before, before.units[id], s);
    forall w | w in before.units && Pullable(l.Config(), l.Nodes(), before, l.node, before.units[w])
      ensures PullScore(l.Config(), l.Nodes(), before, l.node, before.units[w]) == 1.0
    {
    }
  }

  lemma FirstPullGoes(l: Stale)
    requires l.first != l.second
    ensures l.Goes(1)
  {
    UnitsDiffer(l);
    PullGoes(l, l.Waiting(l.first), l.Waiting(l.second), StagePending, l.First());
    assert l.DbAt(2).units == l.DbAt(1).units[l.First() := l.Held(l.first, Assigned)];
  }

  lemma SecondPullGoes(l: Stale)
    requires l.first != l.second
    ensures l.Goes(3)
  {
    UnitsDiffer(l);
    PullGoes(l, l.Held(l.first, UnitStatus.Completed), l.Waiting(l.second), StageCompleted, l.Second());
    assert l.DbAt(4).units == l.DbAt(3).units[l.Second() := l.Held(l.second, Assigned)];
  }

  /** A report on the first unit settles the first stage; the job goes on. */
  lemma ReportGoes(l: Stale, u: UnitStatus, u': UnitStatus, v: Unit, s: StageStatus, s': StageStatus)
    requires l.first != l.second && v.stageID == l.second && u != u'
    requires (u' == UnitStatus.Completed && s' == StageCompleted) || (u' == Running && s' == StageRunning)
    ensures ReportDone(l.DbWith(l.Held(l.first, u), v, s), l.DbWith(l.Held(l.first, u'), v, s'), l.maxRetries, l.First(), u', 0, "", 0)
  {
    var before, after := l.DbWith(l.Held(l.first, u), v, s), l.DbWith(l.Held(l.first, u'), v, s');
    UnitsDiffer(l);
    assert UnitWith(before.units[l.First()], u', 0, "", 0) == l.Held(l.first, u');
    var mid := before.(units := before.units[l.First() := l.Held(l.first, u')]);
    assert mid.units == after.units;
    Judgement(l, mid.units, v, u', s');
    SetKeepsRest(l, s, s');
    CancelNothing(mid.units, 0);
    assert !TerminalStage(l.Stages(s')[1].status);
    assert after.jobs == mid.jobs[l.jobID := after.jobs[l.jobID]];
    assert l.Stages(s)[0].id == l.first;
    assert Propagated(mid, after, l.jobID, l.first, 0);
  }

  lemma Judgement(l: Stale, units: map<string, Unit>, v: Unit, u: UnitStatus, s: StageStatus)
    requires l.first != l.second && v.stageID == l.second
    requires units == map[l.First() := l.Held(l.first, u)][l.Second() := v]
    requires (u == UnitStatus.Completed && s == StageCompleted) || (u == Running && s == StageRunning)
    ensures StageVerdict(units, l.first) == s
  {
    UnitsDiffer(l);
    assert units[l.First()] == l.Held(l.first, u) && units[l.Second()] == v;
  }

  lemma SetKeepsRest(l: Stale, s: StageStatus, s': StageStatus)
    ensures SetStage(l.Stages(s), l.first, s') == l.Stages(s')
  {
    assert l.Stages(s)[1..] == l.Stages(s')[1..];
  }

  lemma StaleGoes(l: Stale, k: nat)
    requires l.first != l.second && k < 5
    ensures l.Goes(k)
  {
    if k == 0 {
      SubmitGoes(l);
    } else if k == 1 {
      FirstPullGoes(l);
    } else if k == 3 {
      SecondPullGoes(l);
    } else if k == 2 {
      CompletionGoes(l);
    } else {
      StaleReportGoes(l);
    }
  }

  lemma CompletionGoes(l: Stale)
    requires l.first != l.second
    ensures l.Goes(2)
  {
    ReportGoes(l, Assigned, UnitStatus.Completed, l.Waiting(l.second), StagePending, StageCompleted);
  }

  lemma StaleReportGoes(l: Stale)
    requires l.first != l.second
    ensures l.Goes(4)
  {
    ReportGoes(l, UnitStatus.Completed, Running, l.Held(l.second, Assigned), StageCompleted, StageRunning);
  }

  lemma BehavesUntilLast(l: Stale, k: nat)
    requires l.first != l.second && k < 4
    ensures WellBehaved(l.WorldAt(k), l.StepAt(k))
  {
    UnitsDiffer(l);
    if k == 0 { assert forall s :: s in l.Stages(StagePending) ==> s.status == StagePending; }
  }

  /** All steps but the last are by well-behaved agents, so the order holds up to there; the
      last one is a stale report, and breaks it. */
  lemma StaleRunBreaksOrder(l: Stale) returns (worlds: seq<World>, steps: seq<Step>)
    requires l.first != l.second
    ensures |steps| == 5 && SchedulerRuns.IsRun(l.maxRetries, worlds, steps) && worlds[0] == World(EmptyDb, l.Nodes())
    ensures forall k :: 0 <= k < 4 ==> WellBehaved(worlds[k], steps[k])
    ensures Sound(worlds[4].db) && !InOrder(worlds[5].db)
  {
    worlds := seq(6, (k: nat) => l.WorldAt(k));
    steps := seq(5, (k: nat) => l.StepAt(k));
    forall k | 0 <= k < 5
      ensures Next(l.maxRetries, worlds[k], steps[k], worlds[k + 1])
    {
      StaleGoes(l, k);
    }
    forall k | 0 <= k < 4
      ensures WellBehaved(worlds[k], steps[k])
    {
      BehavesUntilLast(l, k);
    }
    SchedulerRuns.RunIsSound(l.maxRetries, worlds[..5], steps[..4], 4);
    LastReportIsStale(l);
  }

  lemma LastReportIsStale(l: Stale)
    requires l.first != l.second && Sound(l.DbAt(4))
    ensures !InOrder(l.DbAt(5))
  {
    UnitsDiffer(l);
    StaleReportGoes(l);
    var stages := l.Stages(StageCompleted);
    StageNamed(l, StageCompleted);
    assert stages[1].id == l.second && l.first in stages[1].dependsOn && Cascade.Names(stages, l.first, l.first);
    SchedulerRuns.StaleReportBreaksOrder(l.DbAt(4), l.DbAt(5), l.maxRetries, l.First(), l.Second(), 0, "", 0);
  }
}
