/** A run in which cleanup leaves a standby behind: two standbys, of which the second pulls
    for the first time after a log file has been removed. */
module LateStandby {
  import opened Model
  import opened WalCodec
  import opened WalLog
  import opened Store
  import opened Replication

  lemma ReadOfOne(alive: set<nat>, k: nat, content: seq<seq<Entry>>, e: Entry)
    requires |content| == k && 1 <= k <= 2 && content[k - 1] == [e] && e.sequence >= 1
    requires k in alive && (k == 2 ==> 1 !in alive)
    ensures AtLeast(Surviving(alive, content), 1) == [e]
  {
    assert Surviving(alive, content[..k - 1]) == [] by {
      if k == 2 { assert content[..1][..0] == []; }
    }
    assert [] + [e] == [e];
    assert AtLeast([e], 1) == [e] + AtLeast([e][1..], 1);
  }

  /** A run of two standbys: the first replays operation 1, acknowledges it while
      operation 2 is in the next file, and lets file 1 be removed; then the second pulls. */
  datatype Late = Late(first: string, second: string) {
    function Documents(): Docs { DocsFor([Op1(), Op2()]) }

    function Op1(): Op { SaveIPAllocation("node-a", "10.1.0.2") }
    function Op2(): Op { SaveIPAllocation("node-b", "10.1.0.3") }

    function EntryOf(op: Op, n: nat): Entry
      requires n < 10
    {
      Entry(ENTRY_DATA, 0, n, Bytes(KeyName(KindOf(op))), Documents().write(op), 0)
    }

    function DbA(): Db { EmptyDb.(ipam := map["node-a" := "10.1.0.2"]) }
    function DbB(): Db { EmptyDb.(ipam := map["node-b" := "10.1.0.3"]) }
    function DbAB(): Db { EmptyDb.(ipam := map["node-a" := "10.1.0.2"]["node-b" := "10.1.0.3"]) }

    function P0(): Primary { Primary(EmptyDb, [], [[]], {1}, map[]) }
    function P1(): Primary { Primary(DbA(), [Op1()], [[EntryOf(Op1(), 1)]], {1}, map[]) }
    function P2(): Primary {
      Primary(DbAB(), [Op1(), Op2()], [[EntryOf(Op1(), 1)], [EntryOf(Op2(), 2)]], {1, 2}, map[])
    }
    function P3(): Primary { P2().(acks := map[first := 1]) }
    function P4(): Primary { P3().(alive := {2}) }

    function A(db: Db, n: nat, st: Option<Stream>): Standby { Standby(first, db, n, st, 0, false) }
    function B(db: Db, n: nat, st: Option<Stream>): Standby { Standby(second, db, n, st, 0, false) }
    function A0(): Standby { A(EmptyDb, 0, None) }
    function A3(): Standby { A(DbA(), 1, Some(Stream(1, []))) }
    function B0(): Standby { B(EmptyDb, 0, None) }
    function Both(p: Primary, a: Standby, b: Standby): Sys { Sys(p, map[0 := a, 1 := b]) }

    function State(k: nat): Sys {
      match k
      case 0 => Both(P0(), A0(), B0())
      case 1 => Both(P1(), A0(), B0())
      case 2 => Both(P1(), A(EmptyDb, 0, Some(Stream(0, []))), B0())
      case 3 => Both(P1(), A(EmptyDb, 0, Some(Stream(1, [EntryOf(Op1(), 1)]))), B0())
      case 4 => Both(P1(), A3(), B0())
      case 5 => Both(P1(), A3().(stream := None), B0())
      case 6 => Both(P2(), A3().(stream := None), B0())
      case 7 => Both(P3(), A3(), B0())
      case 8 => Both(P4(), A3(), B0())
      case 9 => Both(P4(), A3(), B(EmptyDb, 0, Some(Stream(0, []))))
      case 10 => Both(P4(), A3(), B(EmptyDb, 0, Some(Stream(2, [EntryOf(Op2(), 2)]))))
      case _ => Both(P4(), A3(), B(DbB(), 2, Some(Stream(2, []))))
    }

    function StepAt(k: nat): Step {
      match k
      case 0 => Mutate(Op1(), 0, EntryOf(Op1(), 1), false)
      case 1 => Pull(0)
      case 2 => Send(0)
      case 3 => Step.Replay(0, 0)
      case 4 => Drop(0)
      case 5 => Mutate(Op2(), 0, EntryOf(Op2(), 2), true)
      case 6 => Pull(0)
      case 7 => Checkpoint({1})
      case 8 => Pull(1)
      case 9 => Send(1)
      case _ => Step.Replay(1, 0)
    }

    function Settings(): Config { Config(Documents(), EmptyDb, 3) }

    ghost predicate Goes(k: nat) {
      Next(Settings(), State(k), StepAt(k), State(k + 1))
    }
  }

  lemma LateFaithful(l: Late)
    ensures Faithful(l.Documents(), l.Op1()) && Faithful(l.Documents(), l.Op2())
  {
    var ops := [l.Op1(), l.Op2()];
    FaithfulDocsExist(ops);
    assert ops[0] in ops && ops[1] in ops;
  }

  lemma LateReplays(l: Late)
    ensures AfterReplay(l.Documents(), l.A(EmptyDb, 0, Some(Stream(1, [l.EntryOf(l.Op1(), 1)]))), 0) == l.A3()
    ensures AfterReplay(l.Documents(), l.B(EmptyDb, 0, Some(Stream(2, [l.EntryOf(l.Op2(), 2)]))), 0) == l.B(l.DbB(), 2, Some(Stream(2, [])))
  {
    LateFaithful(l);
    ReplayRecorded(l.Documents(), EmptyDb, l.EntryOf(l.Op1(), 1), l.Op1(), 0);
    ReplayRecorded(l.Documents(), EmptyDb, l.EntryOf(l.Op2(), 2), l.Op2(), 0);
    assert Apply(EmptyDb, l.Op1(), 0).value == l.DbA() && Apply(EmptyDb, l.Op2(), 0).value == l.DbB();
    assert [l.EntryOf(l.Op1(), 1)][1..] == [] && [l.EntryOf(l.Op2(), 2)][1..] == [];
  }

  lemma LateSends(l: Late)
    ensures AfterSend(l.P1(), Stream(0, [])) == Stream(1, [l.EntryOf(l.Op1(), 1)])
    ensures AfterSend(l.P4(), Stream(0, [])) == Stream(2, [l.EntryOf(l.Op2(), 2)])
  {
    SendOfOne(l.P1(), 1, l.EntryOf(l.Op1(), 1));
    SendOfOne(l.P4(), 2, l.EntryOf(l.Op2(), 2));
  }

  lemma SendOfOne(p: Primary, k: nat, e: Entry)
    requires |p.content| == k && 1 <= k <= 2 && p.content[k - 1] == [e] && e.sequence == k && p.alive == {k}
    ensures AfterSend(p, Stream(0, [])) == Stream(k, [e])
  {
    ReadOfOne(p.alive, k, p.content, e);
    assert [] + [e] == [e];
  }

  lemma LateMutates(l: Late)
    ensures l.Goes(0) && l.Goes(5)
  {
    LateFaithful(l);
    assert Records(l.Documents(), l.EntryOf(l.Op1(), 1), l.Op1()) && Records(l.Documents(), l.EntryOf(l.Op2(), 2), l.Op2());
    assert Apply(l.DbA(), l.Op2(), 0).value == l.DbAB() && Apply(EmptyDb, l.Op1(), 0).value == l.DbA();
    assert [] + [l.EntryOf(l.Op1(), 1)] == [l.EntryOf(l.Op1(), 1)];
    assert WalLog.Logged([[]], false, l.EntryOf(l.Op1(), 1)) == l.P1().content;
    assert WalLog.Logged(l.P1().content, true, l.EntryOf(l.Op2(), 2)) == l.P2().content;
    assert {1} + {1} == {1} && {1} + {2} == {1, 2};
    assert [] + [l.Op1()] == [l.Op1()] && [l.Op1()] + [l.Op2()] == [l.Op1(), l.Op2()];
  }

  lemma LateCleans(l: Late)
    ensures l.Goes(7)
  {
    var p := l.P3();
    assert p.content[0] == [l.EntryOf(l.Op1(), 1)] && p.acks[l.first] == 1;
    assert Removable(p, 1);
    var alive: set<nat> := {1, 2};
    assert alive - {1} == {2};
  }

  lemma LateSendsGo(l: Late)
    ensures l.Goes(2) && l.Goes(9)
  {
    LateSends(l);
  }

  lemma LateFirstPulls(l: Late)
    ensures l.Goes(1) && l.Goes(8)
  {
  }

  lemma LateDrops(l: Late)
    ensures l.Goes(4)
  {
  }

  lemma LateAcknowledges(l: Late)
    ensures l.Goes(6)
  {
  }

  lemma LateReplayMoves(l: Late, k: nat)
    requires k in {3, 10}
    ensures l.Goes(k)
  {
    LateReplays(l);
  }

  lemma LateGoes(l: Late, k: nat)
    requires k < 11
    ensures l.Goes(k)
  {
    if k == 0 || k == 5 {
      LateMutates(l);
    } else if k == 7 {
      LateCleans(l);
    } else if k == 2 || k == 9 {
      LateSendsGo(l);
    } else if k == 3 || k == 10 {
      LateReplayMoves(l, k);
    } else {
      LateFirstPulls(l);
      LateDrops(l);
      LateAcknowledges(l);
    }
  }

  lemma LateIsRun(l: Late, states: seq<Sys>, steps: seq<Step>)
    requires |states| == 12 && |steps| == 11
    requires (forall k :: 0 <= k < 12 ==> states[k] == l.State(k)) && (forall k :: 0 <= k < 11 ==> steps[k] == l.StepAt(k))
    ensures IsRun(l.Settings(), states, steps)
  {
    forall t | 0 <= t < |steps|
      ensures Next(l.Settings(), states[t], steps[t], states[t + 1])
    {
      LateGoes(l, t);
    }
  }

  /** A standby whose first pull comes after a cleanup ends up with the primary's last
      number and without the primary's data, whether it has a name of its own or shares
      the name the other standby acknowledged under. */
  lemma LateStandbyDiverges(l: Late) returns (states: seq<Sys>, steps: seq<Step>)
    ensures IsRun(l.Settings(), states, steps)
    ensures states[0] == l.Both(l.P0(), l.A0(), l.B0()) && |states| == 12
    ensures states[11].standbys.Keys == {0, 1}
    ensures var p, b := states[11].primary, states[11].standbys[1];
      b.lastSync == |p.ops| && !Consistent(l.Settings(), b.db, p.ops[..b.lastSync])
  {
    states := seq(12, (k: nat) => l.State(k));
    steps := seq(11, (k: nat) => l.StepAt(k));
    LateIsRun(l, states, steps);
    LateReference(l);
  }

  lemma LateReference(l: Late)
    ensures Model.Replayed(EmptyDb, l.P4().ops) == Some(l.DbAB()) && l.P4().ops[..2] == l.P4().ops
    ensures "node-a" in l.DbAB().ipam && "node-a" !in l.DbB().ipam
  {
    var ops := l.P4().ops;
    assert ops[..1] == [l.Op1()] && [l.Op1()][..0] == [];
    assert Model.Replayed(EmptyDb, []) == Some(EmptyDb);
    assert Apply(EmptyDb, l.Op1(), 0).value == l.DbA();
    assert Model.Replayed(EmptyDb, [l.Op1()]) == Some(l.DbA());
    assert Apply(l.DbA(), l.Op2(), 0).value == l.DbAB();
    assert "node-a"[5] != "node-b"[5];
  }
}
