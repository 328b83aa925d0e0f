/** Topological sorting of workflow stages (pkg/taskmodel/taskmodel.go). */
module Topo {
  import opened Graph
  import opened Model

  // ---------- the dependency graph ----------

  /** Some stage called `a` depends on `b`. */
  ghost predicate Depends(stages: seq<Stage>, a: string, b: string) {
    exists i :: 0 <= i < |stages| && stages[i].name == a && b in stages[i].dependsOn
  }

  ghost function Dependency(stages: seq<Stage>): (string, string) -> bool {
    (a, b) => Depends(stages, a, b)
  }

  function Names(stages: seq<Stage>): (names: seq<string>)
    ensures |names| == |stages| && forall i :: 0 <= i < |stages| ==> names[i] == stages[i].name
  {
    seq(|stages|, i requires 0 <= i < |stages| => stages[i].name)
  }

  ghost predicate UniqueNames(stages: seq<Stage>) {
    forall i, j :: 0 <= i < j < |stages| ==> stages[i].name != stages[j].name
  }

  ghost predicate DepsExist(stages: seq<Stage>) {
    forall i :: 0 <= i < |stages| ==> AllKnown(Elements(Names(stages)), stages[i].dependsOn)
  }

  ghost predicate AllKnown<N>(known: set<N>, deps: seq<N>) {
    forall d :: d in deps ==> d in known
  }

  /** Every stage comes after all the stages it depends on. */
  ghost predicate InOrder(sorted: seq<Stage>) {
    forall i, d :: 0 <= i < |sorted| && d in sorted[i].dependsOn ==> exists j :: 0 <= j < i && sorted[j].name == d
  }

  ghost predicate Sortable(stages: seq<Stage>) {
    UniqueNames(stages) && DepsExist(stages) && Acyclic(Dependency(stages))
  }

  // ---------- edges, with their multiplicity ----------

  function StageEdges<N>(name: N, deps: seq<N>): (es: seq<(N, N)>)
    ensures |es| == |deps| && forall i :: 0 <= i < |deps| ==> es[i] == (name, deps[i])
  {
    seq(|deps|, i requires 0 <= i < |deps| => (name, deps[i]))
  }

  function Edges(stages: seq<Stage>): seq<(string, string)> {
    if stages == [] then []
    else Edges(stages[..|stages| - 1]) + StageEdges(stages[|stages| - 1].name, stages[|stages| - 1].dependsOn)
  }

  lemma {:induction false} EdgeIsDependency(stages: seq<Stage>, a: string, b: string)
    ensures (a, b) in Edges(stages) <==> Depends(stages, a, b)
    decreases |stages|
  {
    if stages != [] {
      var k := |stages| - 1;
      var front, last := stages[..k], StageEdges(stages[k].name, stages[k].dependsOn);
      EdgeIsDependency(front, a, b);
      if Depends(stages, a, b) {
        var i :| 0 <= i < |stages| && stages[i].name == a && b in stages[i].dependsOn;
        if i < k {
          assert front[i] == stages[i];
        } else {
          var j :| 0 <= j < |stages[k].dependsOn| && stages[k].dependsOn[j] == b;
          assert last[j] == (a, b);
        }
      }
      if Depends(front, a, b) {
        var i :| 0 <= i < k && front[i].name == a && b in front[i].dependsOn;
        assert stages[i] == front[i];
      }
    }
  }

  /** How many edges leave `a` for a stage outside `done`. */
  function Open<N(==)>(es: seq<(N, N)>, done: set<N>, a: N): nat {
    if es == [] then 0
    else Open(es[..|es| - 1], done, a) + (if es[|es| - 1].0 == a && es[|es| - 1].1 !in done then 1 else 0)
  }

  /** The stages that depend on `b`, once for every edge. */
  function Dependents<N(==)>(es: seq<(N, N)>, b: N): seq<N> {
    if es == [] then []
    else Dependents(es[..|es| - 1], b) + (if es[|es| - 1].1 == b then [es[|es| - 1].0] else [])
  }

  function Count<N(==)>(names: seq<N>, a: N): nat {
    if names == [] then 0 else Count(names[..|names| - 1], a) + (if names[|names| - 1] == a then 1 else 0)
  }

  lemma CountLast<N>(names: seq<N>, last: N, a: N)
    ensures Count(names + [last], a) == Count(names, a) + if last == a then 1 else 0
  {
    assert (names + [last])[..|names|] == names;
  }

  /** Finishing `b` closes exactly the edges to it. */
  lemma {:induction false} OpenAfter<N>(es: seq<(N, N)>, done: set<N>, b: N, a: N)
    requires b !in done
    ensures Open(es, done + {b}, a) + Count(Dependents(es, b), a) == Open(es, done, a)
    decreases |es|
  {
    if es != [] {
      var front, e := es[..|es| - 1], es[|es| - 1];
      OpenAfter(front, done, b, a);
      var ds := Dependents(front, b);
      CountLast(ds, e.0, a);
      assert Dependents(es, b) == if e.1 == b then ds + [e.0] else ds;
      assert e.1 !in done + {b} <==> e.1 !in done && e.1 != b;
    }
  }

  lemma {:induction false} OpenZero<N(!new)>(es: seq<(N, N)>, done: set<N>, a: N)
    ensures Open(es, done, a) == 0 <==> forall b :: (a, b) in es ==> b in done
    decreases |es|
  {
    if es != [] {
      var front, e := es[..|es| - 1], es[|es| - 1];
      OpenZero(front, done, a);
      assert es == front + [e];
    }
  }

  lemma {:induction false} DependentsOf<N>(es: seq<(N, N)>, a: N, b: N)
    ensures a in Dependents(es, b) <==> (a, b) in es
    decreases |es|
  {
    if es != [] {
      var front, e := es[..|es| - 1], es[|es| - 1];
      DependentsOf(front, a, b);
      assert es == front + [e];
    }
  }

  lemma {:induction false} CountPrefix<N>(names: seq<N>, k: nat, a: N)
    requires k <= |names|
    ensures Count(names[..k], a) <= Count(names, a)
    decreases |names|
  {
    if k < |names| {
      assert names[..|names| - 1][..k] == names[..k];
      CountPrefix(names[..|names| - 1], k, a);
    } else {
      assert names[..k] == names;
    }
  }

  lemma CountNext<N>(names: seq<N>, k: nat, a: N)
    requires k < |names|
    ensures Count(names[..k + 1], a) == Count(names[..k], a) + (if names[k] == a then 1 else 0)
    ensures Count(names[..k + 1], a) <= Count(names, a)
  {
    assert names[..k + 1][..k] == names[..k];
    CountPrefix(names, k + 1, a);
  }

  // ---------- the first pass: counting edges ----------

  /** The degrees and dependents recorded so far are those of the edges `es`. */
  ghost predicate Counted<N(!new)>(es: seq<(N, N)>, inDegree: map<N, nat>, dependencies: map<N, seq<N>>) {
    && (forall a :: a in inDegree ==> inDegree[a] == Open(es, {}, a))
    && (forall b :: DependentsIn(dependencies, b) == Dependents(es, b))
  }

  function DependentsIn<N(==)>(dependencies: map<N, seq<N>>, b: N): seq<N> {
    if b in dependencies then dependencies[b] else []
  }

  lemma InDependents<N(!new)>(dependencies: map<N, seq<N>>, b: N, a: N)
    ensures forall c, d :: d in DependentsIn(dependencies[b := DependentsIn(dependencies, b) + [a]], c) <==>
      d in DependentsIn(dependencies, c) || (c == b && d == a)
  {
    var later := dependencies[b := DependentsIn(dependencies, b) + [a]];
    forall c, d
      ensures d in DependentsIn(later, c) <==> d in DependentsIn(dependencies, c) || (c == b && d == a)
    {
      if c != b { assert DependentsIn(later, c) == DependentsIn(dependencies, c); }
    }
  }

  lemma CountedNext<N(!new)>(es: seq<(N, N)>, inDegree: map<N, nat>, dependencies: map<N, seq<N>>, a: N, b: N)
    requires Counted(es, inDegree, dependencies) && a in inDegree
    ensures Counted(es + [(a, b)], inDegree[a := inDegree[a] + 1],
                    dependencies[b := DependentsIn(dependencies, b) + [a]])
  {
    var next := es + [(a, b)];
    assert next[..|es|] == es;
    forall c
      ensures DependentsIn(dependencies[b := DependentsIn(dependencies, b) + [a]], c) == Dependents(next, c)
    {
      assert Dependents(es, c) + [] == Dependents(es, c);
    }
  }

  lemma NextEdge<N>(before: seq<(N, N)>, name: N, dependsOn: seq<N>, j: nat)
    requires j < |dependsOn|
    ensures before + StageEdges(name, dependsOn[..j]) + [(name, dependsOn[j])]
         == before + StageEdges(name, dependsOn[..j + 1])
    ensures dependsOn[..j + 1] == dependsOn[..j] + [dependsOn[j]]
  {
  }

  lemma NoEdge<N>(before: seq<(N, N)>, name: N, dependsOn: seq<N>)
    ensures before + StageEdges(name, dependsOn[..0]) == before
  {
  }

  /** The inner loop: one stage's dependencies. */
  method CountStage<N(==, !new)>(known: set<N>, name: N, dependsOn: seq<N>, ghost before: seq<(N, N)>,
                                 degrees: map<N, nat>, dependents: map<N, seq<N>>)
    returns (ok: bool, inDegree: map<N, nat>, dependencies: map<N, seq<N>>)
    requires name in known && degrees.Keys == known && Counted(before, degrees, dependents)
    ensures ok <==> AllKnown(known, dependsOn)
    ensures ok ==> inDegree.Keys == known && Counted(before + StageEdges(name, dependsOn), inDegree, dependencies)
  {
    ok, inDegree, dependencies := true, degrees, dependents;
    NoEdge(before, name, dependsOn);
    for j := 0 to |dependsOn|
      invariant inDegree.Keys == known && AllKnown(known, dependsOn[..j])
      invariant Counted(before + StageEdges(name, dependsOn[..j]), inDegree, dependencies)
    {
      var dep := dependsOn[j];
      if dep !in known {
        ok := false;
        return;
      }
      NextEdge(before, name, dependsOn, j);
      CountedNext(before + StageEdges(name, dependsOn[..j]), inDegree, dependencies, name, dep);
      dependencies := dependencies[dep := DependentsIn(dependencies, dep) + [name]];
      inDegree := inDegree[name := inDegree[name] + 1];
    }
    assert dependsOn[..|dependsOn|] == dependsOn;
  }

  method CountEdges(stages: seq<Stage>, known: set<string>, degrees: map<string, nat>)
    returns (ok: bool, inDegree: map<string, nat>, dependencies: map<string, seq<string>>)
    requires known == degrees.Keys == Elements(Names(stages)) && forall a :: a in degrees ==> degrees[a] == 0
    ensures ok <==> DepsExist(stages)
    ensures ok ==> inDegree.Keys == known && Counted(Edges(stages), inDegree, dependencies)
  {
    ok, inDegree, dependencies := true, degrees, map[];
    for i := 0 to |stages|
      invariant inDegree.Keys == known
      invariant forall k :: 0 <= k < i ==> AllKnown(known, stages[k].dependsOn)
      invariant Counted(Edges(stages[..i]), inDegree, dependencies)
    {
      assert Names(stages)[i] == stages[i].name;
      assert stages[..i + 1][..i] == stages[..i];
      ok, inDegree, dependencies :=
        CountStage(known, stages[i].name, stages[i].dependsOn, Edges(stages[..i]), inDegree, dependencies);
      if !ok {
        return;
      }
    }
    assert stages[..|stages|] == stages;
  }

  // ---------- the second pass: Kahn's algorithm ----------

  /** The degrees count the edges to unfinished stages, and the queue holds exactly the
      unfinished stages without any. */
  ghost predicate Kahn<N(!new)>(es: seq<(N, N)>, names: set<N>, inDegree: map<N, nat>, done: set<N>, queue: seq<N>) {
    && inDegree.Keys == names && done <= names
    && (forall a :: a in names ==> inDegree[a] == Open(es, done, a))
    && Ready(inDegree, done, queue)
  }

  ghost predicate Ready<N(!new)>(inDegree: map<N, nat>, done: set<N>, queue: seq<N>) {
    && Distinct(queue)
    && (forall a :: a in queue ==> a in inDegree && a !in done)
    && (forall a :: a in inDegree ==> (inDegree[a] == 0 <==> a in done || a in queue))
  }

  /** The names with nothing to wait for, in any order: Go iterates a map in no
      particular order. */
  method InitialQueue<N(==, !new)>(inDegree: map<N, nat>) returns (queue: seq<N>)
    ensures Distinct(queue) && forall a :: a in queue <==> a in inDegree && inDegree[a] == 0
  {
    queue := [];
    var rest := inDegree.Keys;
    while rest != {}
      invariant rest <= inDegree.Keys && Distinct(queue)
      invariant forall a :: a in queue <==> a in inDegree && a !in rest && inDegree[a] == 0
      decreases rest
    {
      var name :| name in rest;
      rest := rest - {name};
      if inDegree[name] == 0 {
        queue := queue + [name];
      }
    }
  }

  /** Finishes `name`: the loop over its dependents. */
  method Finish<N(==, !new)>(ghost es: seq<(N, N)>, ghost names: set<N>, ghost done: set<N>, name: N,
                             dependents: seq<N>, degrees: map<N, nat>, waiting: seq<N>)
    returns (inDegree: map<N, nat>, queue: seq<N>)
    requires Kahn(es, names, degrees, done, [name] + waiting) && dependents == Dependents(es, name)
    requires forall a, b :: (a, b) in es ==> a in names
    ensures Kahn(es, names, inDegree, done + {name}, queue)
  {
    inDegree, queue := degrees, waiting;
    FinishStarts(es, names, done, name, dependents, degrees, waiting);
    for k := 0 to |dependents|
      invariant inDegree.Keys == names
      invariant forall a :: a in names ==>
        inDegree[a] + Count(dependents[..k], a) == Open(es, done + {name}, a) + Count(dependents, a)
      invariant Ready(inDegree, done + {name}, queue)
    {
      var dependent := dependents[k];
      DependentsOf(es, dependent, name);
      forall a
        ensures Count(dependents[..k + 1], a) == Count(dependents[..k], a) + (if dependent == a then 1 else 0)
        ensures Count(dependents[..k + 1], a) <= Count(dependents, a)
      {
        CountNext(dependents, k, a);
      }
      inDegree := inDegree[dependent := inDegree[dependent] - 1];
      if inDegree[dependent] == 0 {
        queue := queue + [dependent];
      }
    }
    assert dependents[..|dependents|] == dependents;
  }

  lemma FinishStarts<N(!new)>(es: seq<(N, N)>, names: set<N>, done: set<N>, name: N, dependents: seq<N>,
                              degrees: map<N, nat>, waiting: seq<N>)
    requires Kahn(es, names, degrees, done, [name] + waiting) && dependents == Dependents(es, name)
    ensures forall a :: a in names ==> degrees[a] == Open(es, done + {name}, a) + Count(dependents, a)
    ensures Ready(degrees, done + {name}, waiting) && name in names && name !in done && degrees[name] == 0
  {
    var q := [name] + waiting;
    assert q[0] == name && name in q;
    forall a | a in names
      ensures degrees[a] == Open(es, done + {name}, a) + Count(dependents, a)
    {
      OpenAfter(es, done, name, a);
    }
    forall i, j | 0 <= i < j < |waiting|
      ensures waiting[i] != waiting[j]
    {
      assert q[i + 1] == waiting[i] && q[j + 1] == waiting[j];
    }
    forall a | a in waiting
      ensures a in q && a != name
    {
      var i :| 0 <= i < |waiting| && waiting[i] == a;
      assert q[i + 1] == a;
    }
    assert forall a :: a in q ==> a == name || a in waiting;
  }

  /** The names finished so far, each after everything it has an edge to. */
  ghost predicate Ordered<N(!new)>(es: seq<(N, N)>, order: seq<N>) {
    && Distinct(order)
    && forall i, b :: 0 <= i < |order| && (order[i], b) in es ==> b in order[..i]
  }

  lemma OrderNext<N(!new)>(es: seq<(N, N)>, names: set<N>, inDegree: map<N, nat>, order: seq<N>, queue: seq<N>)
    requires queue != [] && Ordered(es, order) && Kahn(es, names, inDegree, Elements(order), queue)
    ensures Ordered(es, order + [queue[0]]) && Elements(order + [queue[0]]) == Elements(order) + {queue[0]}
    ensures queue[0] in names - Elements(order) && [queue[0]] + queue[1..] == queue
  {
    var name := queue[0];
    assert name in queue && inDegree[name] == 0;
    OpenZero(es, Elements(order), name);
    var next := order + [name];
    ElementsOfFront(next);
    assert next[..|order|] == order;
    forall i, b | 0 <= i < |next| && (next[i], b) in es
      ensures b in next[..i]
    {
      if i < |order| { assert next[..i] == order[..i]; }
    }
  }

  /** An empty queue with stages left over means that each of them waits for another. */
  lemma StuckMeansCycle<N(!new)>(es: seq<(N, N)>, names: set<N>, inDegree: map<N, nat>, done: set<N>, rel: (N, N) -> bool)
    requires Kahn(es, names, inDegree, done, []) && done != names
    requires forall a, b :: (a, b) in es ==> b in names
    requires forall a, b :: (a, b) in es ==> rel(a, b)
    ensures !Acyclic(rel)
  {
    var stuck := names - done;
    var start :| start in names && start !in done;
    assert start in stuck;
    forall a | a in stuck
      ensures GoesOn(rel, stuck, a)
    {
      OpenZero(es, done, a);
      var b :| (a, b) in es && b !in done;
      assert b in stuck && rel(a, b);
    }
    CycleIn(rel, stuck);
  }

  lemma OrderedRespects<N(!new)>(es: seq<(N, N)>, order: seq<N>, rel: (N, N) -> bool)
    requires Ordered(es, order) && forall a, b :: rel(a, b) ==> (a, b) in es && a in order
    ensures Respects(rel, order)
  {
    forall a, b | rel(a, b)
      ensures exists i, j :: 0 <= j < i < |order| && order[i] == a && order[j] == b
    {
      var i :| 0 <= i < |order| && order[i] == a;
      assert b in order[..i];
      var j :| 0 <= j < i && order[..i][j] == b;
      assert order[j] == b;
    }
  }

  // ---------- the whole sort ----------

  /** The table and the zero degrees built by the first loop. */
  ghost predicate Tabled(stages: seq<Stage>, nameMap: map<string, Stage>) {
    && nameMap.Keys == Elements(Names(stages))
    && forall a :: a in nameMap ==> nameMap[a] in stages && nameMap[a].name == a
  }

  method Tabulate(stages: seq<Stage>) returns (inDegree: map<string, nat>, nameMap: map<string, Stage>)
    ensures inDegree.Keys == nameMap.Keys && Tabled(stages, nameMap) && forall a :: a in inDegree ==> inDegree[a] == 0
  {
    inDegree, nameMap := map[], map[];
    for i := 0 to |stages|
      invariant inDegree.Keys == nameMap.Keys == Elements(Names(stages)[..i])
      invariant forall a :: a in inDegree ==> inDegree[a] == 0
      invariant forall a :: a in nameMap ==> nameMap[a] in stages && nameMap[a].name == a
    {
      var name := stages[i].name;
      assert Names(stages)[..i + 1] == Names(stages)[..i] + [name];
      nameMap := nameMap[name := stages[i]];
      if name !in inDegree {
        inDegree := inDegree[name := 0];
      }
    }
    assert Names(stages)[..|stages|] == Names(stages);
  }

  /** Succeeds exactly when names are unique, dependencies exist and there is no cycle; the
      result is then the same stages, each after all it depends on. */
  method TopologicalSort(stages: seq<Stage>) returns (r: Option<seq<Stage>>)
    ensures r.Some? <==> Sortable(stages)
    ensures r.Some? ==> multiset(r.value) == multiset(stages) && InOrder(r.value)
  {
    var inDegree, nameMap := Tabulate(stages);
    var ok, degrees, dependencies := CountEdges(stages, nameMap.Keys, inDegree);
    if !ok {
      return None;
    }
    inDegree := degrees;
    ghost var es := Edges(stages);
    EdgesAmong(stages);
    var queue := InitialQueue(inDegree);

    var result: seq<Stage> := [];
    ghost var order: seq<string> := [];
    assert Elements(order) == {};
    while queue != []
      invariant Kahn(es, nameMap.Keys, inDegree, Elements(order), queue) && Ordered(es, order)
      invariant Looked(nameMap, order, result)
      decreases nameMap.Keys - Elements(order)
    {
      var name := queue[0];
      OrderNext(es, nameMap.Keys, inDegree, order, queue);
      LookedNext(nameMap, order, result, name);
      result := result + [nameMap[name]];
      inDegree, queue := Finish(es, nameMap.Keys, Elements(order), name, DependentsIn(dependencies, name), inDegree, queue[1..]);
      order := order + [name];
    }
    if |result| != |stages| {
      StuckStages(stages, nameMap, inDegree, order);
      return None;
    }
    FinishedStages(stages, nameMap, order, result);
    r := Some(result);
  }

  ghost predicate Looked(nameMap: map<string, Stage>, order: seq<string>, result: seq<Stage>) {
    |result| == |order| && forall i :: 0 <= i < |order| ==> order[i] in nameMap && result[i] == nameMap[order[i]]
  }

  lemma LookedNext(nameMap: map<string, Stage>, order: seq<string>, result: seq<Stage>, name: string)
    requires Looked(nameMap, order, result) && name in nameMap
    ensures Looked(nameMap, order + [name], result + [nameMap[name]])
  {
  }

  lemma EdgesAmong(stages: seq<Stage>)
    ensures forall a, b :: (a, b) in Edges(stages) <==> Dependency(stages)(a, b)
    ensures forall a, b :: (a, b) in Edges(stages) ==> a in Elements(Names(stages))
    ensures DepsExist(stages) ==> forall a, b :: (a, b) in Edges(stages) ==> b in Elements(Names(stages))
  {
    forall a, b
      ensures (a, b) in Edges(stages) <==> Dependency(stages)(a, b)
      ensures (a, b) in Edges(stages) ==> a in Elements(Names(stages))
      ensures DepsExist(stages) ==> (a, b) in Edges(stages) ==> b in Elements(Names(stages))
    {
      EdgeIsDependency(stages, a, b);
      if (a, b) in Edges(stages) {
        var i :| 0 <= i < |stages| && stages[i].name == a && b in stages[i].dependsOn;
        assert Names(stages)[i] == a;
      }
    }
  }

  lemma StuckStages(stages: seq<Stage>, nameMap: map<string, Stage>, inDegree: map<string, nat>, order: seq<string>)
    requires Tabled(stages, nameMap) && Kahn(Edges(stages), nameMap.Keys, inDegree, Elements(order), [])
    requires DepsExist(stages) && Distinct(order) && |order| != |stages|
    ensures !Sortable(stages)
  {
    ElementCount(Names(stages));
    ElementCount(order);
    EdgesAmong(stages);
    if Distinct(Names(stages)) {
      StuckMeansCycle(Edges(stages), nameMap.Keys, inDegree, Elements(order), Dependency(stages));
    } else {
      var i, j :| 0 <= i < j < |stages| && Names(stages)[i] == Names(stages)[j];
      assert stages[i].name == stages[j].name;
    }
  }

  lemma FinishedStages(stages: seq<Stage>, nameMap: map<string, Stage>, order: seq<string>, result: seq<Stage>)
    requires Tabled(stages, nameMap) && Looked(nameMap, order, result) && |result| == |stages|
    requires DepsExist(stages) && Ordered(Edges(stages), order)
    ensures Sortable(stages) && multiset(result) == multiset(stages) && InOrder(result)
  {
    ElementCount(Names(stages));
    ElementCount(order);
    assert Elements(order) <= nameMap.Keys;
    SubsetSameSize(Elements(order), nameMap.Keys);
    assert UniqueNames(stages) by {
      assert Distinct(Names(stages));
      assert forall i :: 0 <= i < |stages| ==> Names(stages)[i] == stages[i].name;
    }
    EdgesAmong(stages);
    OrderedRespects(Edges(stages), order, Dependency(stages));
    OrderIsAcyclic(Dependency(stages), order);
    ResultInOrder(stages, nameMap, order, result);
    SameStages(stages, nameMap, order, result);
  }

  lemma ResultInOrder(stages: seq<Stage>, nameMap: map<string, Stage>, order: seq<string>, result: seq<Stage>)
    requires Tabled(stages, nameMap) && Looked(nameMap, order, result) && Ordered(Edges(stages), order)
    ensures InOrder(result)
  {
    forall i, d | 0 <= i < |result| && d in result[i].dependsOn
      ensures exists j :: 0 <= j < i && result[j].name == d
    {
      var k :| 0 <= k < |stages| && stages[k] == result[i];
      EdgeIsDependency(stages, order[i], d);
      assert d in order[..i];
      var j :| 0 <= j < i && order[..i][j] == d;
      assert result[j].name == d;
    }
  }

  lemma SameStages(stages: seq<Stage>, nameMap: map<string, Stage>, order: seq<string>, result: seq<Stage>)
    requires Tabled(stages, nameMap) && Looked(nameMap, order, result)
    requires UniqueNames(stages) && Distinct(order) && Elements(order) == nameMap.Keys
    ensures multiset(result) == multiset(stages)
  {
    assert Distinct(result) by {
      assert forall i :: 0 <= i < |result| ==> result[i].name == order[i];
    }
    assert Distinct(stages);
    forall x
      ensures x in result <==> x in stages
    {
      if x in stages {
        var k :| 0 <= k < |stages| && stages[k] == x;
        assert Names(stages)[k] == x.name;
        SameStage(stages, x, nameMap[x.name]);
        var i :| 0 <= i < |order| && order[i] == x.name;
        assert result[i] == x;
      }
    }
    SameElements(result, stages);
  }

  lemma SameStage(stages: seq<Stage>, x: Stage, y: Stage)
    requires UniqueNames(stages) && x in stages && y in stages && x.name == y.name
    ensures x == y
  {
    var i :| 0 <= i < |stages| && stages[i] == x;
    var j :| 0 <= j < |stages| && stages[j] == y;
  }

  // ---------- validation ----------

  /** The set of names, or None at the first duplicate. */
  method CollectNames(stages: seq<Stage>) returns (names: Option<set<string>>)
    ensures names.Some? <==> UniqueNames(stages)
    ensures names.Some? ==> names.value == Elements(Names(stages))
  {
    var seen: set<string> := {};
    var all := Names(stages);
    assert all[..0] == [];
    for i := 0 to |stages|
      invariant seen == Elements(all[..i]) && Distinct(all[..i])
    {
      assert all[..i + 1] == all[..i] + [all[i]];
      if stages[i].name in seen {
        var k :| 0 <= k < i && all[..i][k] == stages[i].name;
        assert stages[k].name == stages[i].name;
        return None;
      }
      seen := seen + {stages[i].name};
    }
    assert all[..|stages|] == all;
    assert forall i :: 0 <= i < |stages| ==> all[i] == stages[i].name;
    names := Some(seen);
  }

  /** A workflow is valid exactly when it has stages that can be sorted; other jobs are not
      looked at. */
  method ValidateWorkflow(job: Job) returns (ok: bool)
    ensures ok <==> job.jobType != Workflow || (job.stages != [] && Sortable(job.stages))
  {
    if job.jobType != Workflow {
      return true;
    }
    if |job.stages| == 0 {
      return false;
    }
    var names := CollectNames(job.stages);
    if names.None? {
      return false;
    }
    for i := 0 to |job.stages|
      invariant forall k :: 0 <= k < i ==> AllKnown(Elements(Names(job.stages)), job.stages[k].dependsOn)
    {
      for j := 0 to |job.stages[i].dependsOn|
        invariant forall m :: 0 <= m < j ==> job.stages[i].dependsOn[m] in names.value
      {
        if job.stages[i].dependsOn[j] !in names.value {
          return false;
        }
      }
    }
    var sorted := TopologicalSort(job.stages);
    ok := sorted.Some?;
  }
}
