/** The trust graph (pkg/trustgraph/graph.go): expiring edges in two indexes, and a search
    with a budget.  The clock is read once per call. */
module TrustGraph {
  import opened Graph
  import opened Model

  datatype Edge<N> = Edge(from: N, to: N, createdAt: int, expiresAt: Option<int>)

  type Index<N, V> = map<N, map<N, V>>

  function Lookup<N, V>(index: Index<N, V>, a: N, b: N): Option<V> {
    if a in index && b in index[a] then Some(index[a][b]) else None
  }

  predicate Expired<N>(e: Edge<N>, now: int) {
    e.expiresAt.Some? && now > e.expiresAt.value
  }

  predicate Live<N>(index: Index<N, Edge<N>>, a: N, b: N, now: int) {
    Lookup(index, a, b).Some? && !Expired(Lookup(index, a, b).value, now)
  }

  ghost function Trusts<N(!new)>(index: Index<N, Edge<N>>, now: int): (N, N) -> bool {
    (a, b) => Live(index, a, b, now)
  }

  ghost predicate NoEmptyEntry<N(!new), V(!new)>(index: Index<N, V>) {
    forall a :: a in index ==> index[a] != map[]
  }

  /** The indexes hold the same edges, each under its own ends, and no forward entry is empty. */
  ghost predicate Twins<N(!new)>(edges: Index<N, Edge<N>>, reverse: Index<N, Edge<N>>) {
    SameEdges(edges, reverse) && NoEmptyEntry(edges)
  }

  ghost predicate SameEdges<N(!new)>(edges: Index<N, Edge<N>>, reverse: Index<N, Edge<N>>) {
    && (forall a, b :: Lookup(edges, a, b) == Lookup(reverse, b, a))
    && (forall a, b :: OwnEnds(Lookup(edges, a, b), a, b))
  }

  ghost predicate OwnEnds<N(!new)>(e: Option<Edge<N>>, a: N, b: N) {
    e.Some? ==> a != b && e.value.from == a && e.value.to == b
  }

  // ---------- one index ----------

  /** Only the value at (a, b) differs. */
  ghost predicate Changed<N(!new), V(!new)>(before: Index<N, V>, after: Index<N, V>, a: N, b: N, v: Option<V>) {
    forall x, y :: Lookup(after, x, y) == if x == a && y == b then v else Lookup(before, x, y)
  }

  function Put<N(==), V>(index: Index<N, V>, a: N, b: N, v: V): Index<N, V> {
    index[a := (if a in index then index[a] else map[])[b := v]]
  }

  lemma PutChanges<N(!new), V(!new)>(index: Index<N, V>, a: N, b: N, v: V)
    ensures Changed(index, Put(index, a, b, v), a, b, Some(v))
    ensures NoEmptyEntry(index) ==> NoEmptyEntry(Put(index, a, b, v))
  {
    assert b in Put(index, a, b, v)[a];
  }

  /** Removes one edge and an entry that became empty. */
  function Cut<N(==), V>(index: Index<N, V>, a: N, b: N): Index<N, V> {
    if a !in index then index
    else if |index[a] - {b}| == 0 then index - {a}
    else index[a := index[a] - {b}]
  }

  lemma CutChanges<N(!new), V(!new)>(index: Index<N, V>, a: N, b: N)
    ensures Changed(index, Cut(index, a, b), a, b, None)
    ensures NoEmptyEntry(index) ==> NoEmptyEntry(Cut(index, a, b))
  {
    if a in index {
      var rest := index[a] - {b};
      assert forall y :: y in index[a] && y != b ==> y in rest;
      if |rest| == 0 {
        assert rest == map[];
      }
    }
  }

  lemma TwinsChange<N(!new)>(edges: Index<N, Edge<N>>, reverse: Index<N, Edge<N>>, edges': Index<N, Edge<N>>,
                             reverse': Index<N, Edge<N>>, a: N, b: N, e: Option<Edge<N>>)
    requires SameEdges(edges, reverse) && Changed(edges, edges', a, b, e) && Changed(reverse, reverse', b, a, e)
    requires OwnEnds(e, a, b)
    ensures SameEdges(edges', reverse')
  {
  }

  // ---------- searching ----------

  function Budget(maxDepth: int): nat {
    if maxDepth <= 0 then 10 else maxDepth
  }

  /** A path of at most `n` edges. */
  ghost predicate Within<N(!new)>(rel: (N, N) -> bool, a: N, b: N, n: nat) {
    exists p :: IsPath(rel, p) && p[0] == a && p[|p| - 1] == b && |p| <= n + 1
  }

  /** The nodes with an entry that a live path from `from` reaches. */
  ghost function Sources<N(!new)>(index: Index<N, Edge<N>>, from: N, now: int): set<N> {
    set x | x in index && Reaches(Trusts(index, now), from, x)
  }

  ghost function Targets<N(!new), V(!new)>(index: Index<N, V>): set<N> {
    set a, b | a in index && b in index[a] :: b
  }

  ghost function Expanded<N(!new), V(!new)>(index: Index<N, V>, popped: set<N>): set<N> {
    set x | x in popped && x in index
  }

  /** Every node is waiting, popped or not seen yet, and has a short path. */
  ghost predicate Hunt<N(!new)>(rel: (N, N) -> bool, from: N, queue: seq<N>, popped: set<N>, visited: set<N>, bound: nat) {
    && from in visited && Distinct(queue)
    && (forall x :: x in visited <==> x in popped || x in queue)
    && (forall x :: x in queue ==> x !in popped)
    && (forall x :: x in visited ==> Within(rel, from, x, bound))
  }

  /** What popped nodes trust has been visited, and is not the goal. */
  ghost predicate Clear<N(!new)>(rel: (N, N) -> bool, to: N, popped: set<N>, visited: set<N>) {
    forall x, y :: x in popped && rel(x, y) ==> y in visited && y != to
  }

  ghost predicate Fresh<N(!new)>(seen: set<N>, queue: seq<N>) {
    Distinct(queue) && forall x :: x in queue ==> x in seen
  }

  ghost predicate Queued<N(!new)>(rel: (N, N) -> bool, next: N, seen: set<N>, waiting: seq<N>, visited: set<N>, queue: seq<N>) {
    && (forall x :: x in visited <==> x in seen || rel(next, x))
    && (forall x :: x in queue <==> x in waiting || (x in visited && x !in seen))
    && (Fresh(seen, waiting) ==> Distinct(queue))
  }

  lemma HuntStarts<N(!new)>(rel: (N, N) -> bool, from: N)
    ensures Hunt(rel, from, [from], {}, {from}, 0)
  {
    assert IsPath(rel, [from]);
  }

  // ---------- pruning ----------

  /** Deletes one value and leaves the entry, even if that is now empty. */
  function Erase<N(==), V>(index: Index<N, V>, a: N, b: N): Index<N, V> {
    if a in index then index[a := index[a] - {b}] else index
  }

  lemma EraseChanges<N(!new), V(!new)>(index: Index<N, V>, a: N, b: N)
    ensures Changed(index, Erase(index, a, b), a, b, None) && Erase(index, a, b).Keys == index.Keys
    ensures forall x :: x in index && x != a ==> Erase(index, a, b)[x] == index[x]
  {
  }

  /** Exactly the pairs in `gone` are gone. */
  ghost predicate Without<N(!new), V(!new)>(before: Index<N, V>, after: Index<N, V>, gone: set<(N, N)>) {
    forall a, b :: Lookup(after, a, b) == if (a, b) in gone then None else Lookup(before, a, b)
  }

  lemma LeftAreLive<N(!new)>(before: Index<N, Edge<N>>, after: Index<N, Edge<N>>, now: int)
    requires Without(before, after, ExpiredPairs(before, now))
    ensures forall a, b :: a in after && b in after[a] <==>
      a in before && b in before[a] && (before[a][b].expiresAt.None? || now <= before[a][b].expiresAt.value)
  {
    forall a, b
      ensures a in after && b in after[a] <==>
        a in before && b in before[a] && (before[a][b].expiresAt.None? || now <= before[a][b].expiresAt.value)
    {
      assert Lookup(after, a, b) == if (a, b) in ExpiredPairs(before, now) then None else Lookup(before, a, b);
    }
  }

  ghost function Pairs<N>(a: N, bs: set<N>): set<(N, N)> {
    set b | b in bs :: (a, b)
  }

  ghost function ExpiredPairs<N(!new)>(index: Index<N, Edge<N>>, now: int): set<(N, N)> {
    set a, b | a in index && b in index[a] && Expired(index[a][b], now) :: (a, b)
  }

  lemma {:induction false} PairCount<N>(a: N, bs: set<N>, gone: set<(N, N)>)
    requires forall b :: b in bs ==> (a, b) !in gone
    ensures |gone + Pairs(a, bs)| == |gone| + |bs|
    decreases bs
  {
    if bs == {} {
      assert gone + Pairs(a, bs) == gone;
    } else {
      var b :| b in bs;
      PairCount(a, bs - {b}, gone);
      assert gone + Pairs(a, bs) == gone + Pairs(a, bs - {b}) + {(a, b)};
    }
  }

  class TrustGraph<N(==, !new)> {
    var edges: Index<N, Edge<N>>
    var reverse: Index<N, Edge<N>>

    ghost predicate Valid()
      reads this
    {
      Twins(edges, reverse)
    }

    constructor ()
      ensures Valid() && forall a, b :: Lookup(edges, a, b) == None
    {
      edges, reverse := map[], map[];
    }

    /** Refuses self-trust; replaces an edge that is already there. */
    method AddEdge(from: N, to: N, expiresAt: Option<int>, now: int) returns (ok: bool)
      requires Valid()
      modifies this
      ensures Valid() && ok == (from != to)
      ensures if ok then Changed(old(edges), edges, from, to, Some(Edge(from, to, now, expiresAt))) else edges == old(edges)
    {
      if from == to {
        return false;
      }
      var edge := Edge(from, to, now, expiresAt);
      PutChanges(edges, from, to, edge);
      PutChanges(reverse, to, from, edge);
      edges := Insert(edges, from, to, edge);
      reverse := Insert(reverse, to, from, edge);
      TwinsChange(old(edges), old(reverse), edges, reverse, from, to, Some(edge));
      ok := true;
    }

    method RemoveEdge(from: N, to: N)
      requires Valid()
      modifies this
      ensures Valid() && Changed(old(edges), edges, from, to, None)
    {
      CutChanges(edges, from, to);
      CutChanges(reverse, to, from);
      edges := Drop(edges, from, to);
      reverse := Drop(reverse, to, from);
      TwinsChange(old(edges), old(reverse), edges, reverse, from, to, None);
    }

    /** Makes the entry if it is missing, then sets one value in it. */
    static method Insert(index: Index<N, Edge<N>>, a: N, b: N, edge: Edge<N>) returns (after: Index<N, Edge<N>>)
      ensures after == Put(index, a, b, edge)
    {
      after := index;
      if a !in after {
        after := after[a := map[]];
      }
      after := after[a := after[a][b := edge]];
    }

    /** Deletes one value and then the entry, if that is now empty. */
    static method Drop(index: Index<N, Edge<N>>, a: N, b: N) returns (after: Index<N, Edge<N>>)
      ensures after == Cut(index, a, b)
    {
      after := index;
      if a in after {
        after := after[a := after[a] - {b}];
        if |after[a]| == 0 {
          after := after - {a};
        }
      }
    }

    method HasTrust(from: N, to: N, now: int) returns (trusts: bool)
      ensures trusts == Live(edges, from, to, now)
      ensures trusts <==>
        from in edges && to in edges[from] && (edges[from][to].expiresAt.None? || now <= edges[from][to].expiresAt.value)
    {
      if from !in edges {
        return false;
      }
      if to !in edges[from] {
        return false;
      }
      var edge := edges[from][to];
      if edge.expiresAt.Some? && now > edge.expiresAt.value {
        return false;
      }
      trusts := true;
    }

    /** The live entries of one index under `node`, once each. */
    static method Neighbours(index: Index<N, Edge<N>>, node: N, now: int) returns (result: seq<N>)
      ensures Distinct(result) && forall x :: x in result <==> Live(index, node, x, now)
    {
      result := [];
      if node !in index {
        return;
      }
      var rest := index[node].Keys;
      while rest != {}
        invariant rest <= index[node].Keys && Distinct(result)
        invariant forall x :: x in result <==> x !in rest && Live(index, node, x, now)
        decreases rest
      {
        var x :| x in rest;
        rest := rest - {x};
        if index[node][x].expiresAt.Some? && now > index[node][x].expiresAt.value {
          continue;
        }
        result := result + [x];
      }
    }

    method GetTrustedNodes(node: N, now: int) returns (result: seq<N>)
      ensures Distinct(result) && forall x :: x in result <==> Live(edges, node, x, now)
    {
      result := Neighbours(edges, node, now);
    }

    /** Reads the reverse index, and finds what a scan of the forward edges would. */
    method GetTrustedBy(node: N, now: int) returns (result: seq<N>)
      requires Valid()
      ensures Distinct(result) && forall x :: x in result <==> Live(edges, x, node, now)
    {
      result := Neighbours(reverse, node, now);
      forall x
        ensures Live(reverse, node, x, now) == Live(edges, x, node, now)
      {
        assert Lookup(edges, x, node) == Lookup(reverse, node, x);
      }
    }

    /** One entry of the forward index: deletes what expired from both indexes. */
    method PruneEntry(from: N, now: int) returns (count: nat, ghost cut: set<N>)
      requires SameEdges(edges, reverse) && from in edges
      modifies this
      ensures SameEdges(edges, reverse) && Without(old(edges), edges, Pairs(from, cut)) && edges.Keys == old(edges).Keys
      ensures forall a :: a in edges && a != from ==> edges[a] == old(edges)[a]
      ensures count == |cut| && forall b :: b in cut <==> b in old(edges)[from] && Expired(old(edges)[from][b], now)
    {
      count, cut := 0, {};
      var entry := edges[from];
      var rest := entry.Keys;
      while rest != {}
        invariant rest <= entry.Keys && count == |cut| && SameEdges(edges, reverse)
        invariant edges.Keys == old(edges).Keys && forall a :: a in edges && a != from ==> edges[a] == old(edges)[a]
        invariant Without(old(edges), edges, Pairs(from, cut))
        invariant forall b :: b in cut <==> b in entry && b !in rest && Expired(entry[b], now)
        decreases rest
      {
        var to :| to in rest;
        rest := rest - {to};
        var edge := entry[to];
        if edge.expiresAt.Some? && now > edge.expiresAt.value {
          EraseChanges(edges, from, to);
          EraseChanges(reverse, to, from);
          ghost var edges0, reverse0 := edges, reverse;
          edges := Erase(edges, from, to);
          reverse := Erase(reverse, to, from);
          TwinsChange(edges0, reverse0, edges, reverse, from, to, None);
          cut := cut + {to};
          count := count + 1;
        }
      }
    }

    /** Removes exactly the expired edges and returns their number. */
    method PruneExpired(now: int) returns (count: nat)
      requires Valid()
      modifies this
      ensures Valid() && count == |ExpiredPairs(old(edges), now)|
      ensures Without(old(edges), edges, ExpiredPairs(old(edges), now))
      ensures forall a, b :: a in edges && b in edges[a] <==>
        a in old(edges) && b in old(edges)[a] && (old(edges)[a][b].expiresAt.None? || now <= old(edges)[a][b].expiresAt.value)
    {
      count := 0;
      ghost var gone: set<(N, N)> := {};
      var rest := edges.Keys;
      while rest != {}
        invariant SameEdges(edges, reverse) && Pruning(old(edges), edges, gone, rest, now) && count == |gone|
        decreases rest
      {
        var from :| from in rest;
        ghost var before := edges;
        var n, cut := PruneEntry(from, now);
        PairCount(from, cut, gone);
        count := count + n;
        ghost var pruned := edges;
        if |edges[from]| == 0 {
          edges := edges - {from};
        }
        PruningNext(old(edges), before, pruned, edges, gone, cut, rest, from, now);
        gone := gone + Pairs(from, cut);
        rest := rest - {from};
      }
      SamePairs(gone, ExpiredPairs(old(edges), now));
      LeftAreLive(old(edges), edges, now);
    }

    /** Breadth-first search that expands at most `maxDepth` nodes (10 if that is not
        positive).  Found means a live path of at most that many edges; not found means that
        there is none, or that so many reachable nodes have entries that the budget ran out. */
    method IsReachable(from: N, to: N, maxDepth: int, now: int) returns (found: bool)
      ensures found ==> Within(Trusts(edges, now), from, to, Budget(maxDepth))
      ensures !found ==> !Reaches(Trusts(edges, now), from, to) || |Sources(edges, from, now)| >= Budget(maxDepth)
      ensures |Sources(edges, from, now)| < Budget(maxDepth) ==> (found <==> Reaches(Trusts(edges, now), from, to))
      ensures from == to || Live(edges, from, to, now) ==> found
      ensures Budget(maxDepth) == if maxDepth <= 0 then 10 else maxDepth
    {
      ghost var rel := Trusts(edges, now);
      if from == to {
        assert IsPath(rel, [from]);
        return true;
      }
      var budget := if maxDepth <= 0 then 10 else maxDepth;
      var visited, queue, depth := {from}, [from], 0;
      ghost var popped: set<N> := {};
      HuntStarts(rel, from);
      assert Expanded(edges, popped) == {};
      while |queue| > 0 && depth < budget
        modifies {}
        invariant Hunt(rel, from, queue, popped, visited, depth) && Clear(rel, to, popped, visited)
        invariant depth == |Expanded(edges, popped)| <= budget
        invariant popped <= {from} + Targets(edges)
        invariant from in popped || (queue == [from] && depth == 0)
        decreases {from} + Targets(edges) - popped
      {
        var next := queue[0];
        queue := queue[1..];
        HuntPops(rel, from, [next] + queue, popped, visited, depth);
        VisitedAreTargets(edges, from, next, now);
        if next !in edges {
          ExpandedSame(edges, popped, next);
          popped := popped + {next};
          continue;
        }
        var hit, visited', queue' := Expand(next, to, visited, queue, now);
        if hit {
          OneFurther(rel, from, next, to, depth);
          return true;
        }
        HuntNext(rel, from, queue, popped, visited, depth, next, queue', visited');
        ExpandedMore(edges, popped, next);
        popped, visited, queue, depth := popped + {next}, visited', queue', depth + 1;
      }
      HuntEnds(edges, from, to, queue, popped, visited, depth, now);
      found := false;
    }

    /** The inner loop: stops at `to`, and queues the live targets not visited yet. */
    method Expand(next: N, to: N, seen: set<N>, waiting: seq<N>, now: int) returns (hit: bool, visited: set<N>, queue: seq<N>)
      requires next in edges
      ensures hit == Live(edges, next, to, now)
      ensures !hit ==> Queued(Trusts(edges, now), next, seen, waiting, visited, queue)
    {
      hit, visited, queue := false, seen, waiting;
      var rest := edges[next].Keys;
      while rest != {}
        modifies {}
        invariant rest <= edges[next].Keys && (Live(edges, next, to, now) ==> to in rest)
        invariant forall x :: x in visited <==> x in seen || (Live(edges, next, x, now) && x !in rest)
        invariant forall x :: x in queue <==> x in waiting || (x in visited && x !in seen)
        invariant Fresh(seen, waiting) ==> Fresh(visited, queue)
        decreases rest
      {
        var target :| target in rest;
        rest := rest - {target};
        var edge := edges[next][target];
        if edge.expiresAt.Some? && now > edge.expiresAt.value {
          continue;
        }
        if target == to {
          return true, visited, queue;
        }
        if target !in visited {
          visited := visited + {target};
          queue := queue + [target];
        }
      }
    }
  }
  /** The pruning has dealt with the entries outside `rest`. */
  ghost predicate Pruning<N(!new)>(before: Index<N, Edge<N>>, edges: Index<N, Edge<N>>, gone: set<(N, N)>, rest: set<N>, now: int) {
    && rest <= edges.Keys <= before.Keys && NoEmptyEntry(edges)
    && (forall a :: a in rest ==> edges[a] == before[a])
    && Without(before, edges, gone)
    && (forall a, b :: (a, b) in gone <==> (a, b) in ExpiredPairs(before, now) && a !in rest)
  }

  lemma PruningNext<N(!new)>(before: Index<N, Edge<N>>, edges: Index<N, Edge<N>>, pruned: Index<N, Edge<N>>,
                             after: Index<N, Edge<N>>, gone: set<(N, N)>, cut: set<N>, rest: set<N>, from: N, now: int)
    requires Pruning(before, edges, gone, rest, now) && from in rest
    requires Without(edges, pruned, Pairs(from, cut)) && pruned.Keys == edges.Keys
    requires forall a :: a in edges && a != from ==> pruned[a] == edges[a]
    requires forall b :: b in cut <==> b in edges[from] && Expired(edges[from][b], now)
    requires after == if |pruned[from]| == 0 then pruned - {from} else pruned
    ensures Pruning(before, after, gone + Pairs(from, cut), rest - {from}, now)
  {
    assert forall a, b :: Lookup(after, a, b) == Lookup(pruned, a, b);
    assert forall a, b :: (a, b) in Pairs(from, cut) <==> a == from && b in cut;
  }

  lemma SamePairs<N(!new)>(s: set<(N, N)>, t: set<(N, N)>)
    requires forall a, b :: (a, b) in s <==> (a, b) in t
    ensures s == t
  {
    forall p
      ensures p in s <==> p in t
    {
      assert p == (p.0, p.1);
    }
  }

  // ---------- the search ----------

  lemma HuntPops<N(!new)>(rel: (N, N) -> bool, from: N, queue: seq<N>, popped: set<N>, visited: set<N>, bound: nat)
    requires Hunt(rel, from, queue, popped, visited, bound) && queue != []
    ensures Hunt(rel, from, queue[1..], popped + {queue[0]}, visited, bound)
    ensures queue[0] in visited && queue[0] !in popped && Fresh(visited, queue[1..])
  {
    assert queue == [queue[0]] + queue[1..];
  }

  lemma OneFurther<N(!new)>(rel: (N, N) -> bool, from: N, x: N, y: N, n: nat)
    requires Within(rel, from, x, n) && rel(x, y)
    ensures Within(rel, from, y, n + 1)
  {
    var p :| IsPath(rel, p) && p[0] == from && p[|p| - 1] == x && |p| <= n + 1;
    var q := p + [y];
    forall i | 0 <= i < |q| - 1
      ensures rel(q[i], q[i + 1])
    {
      if i < |p| - 1 { assert rel(p[i], p[i + 1]); }
    }
    assert IsPath(rel, q);
  }

  lemma WithinMore<N(!new)>(rel: (N, N) -> bool, from: N, x: N, n: nat)
    requires Within(rel, from, x, n)
    ensures Within(rel, from, x, n + 1) && Reaches(rel, from, x)
  {
  }

  lemma HuntNext<N(!new)>(rel: (N, N) -> bool, from: N, waiting: seq<N>, popped: set<N>, seen: set<N>, bound: nat, next: N,
                          queue: seq<N>, visited: set<N>)
    requires Hunt(rel, from, waiting, popped + {next}, seen, bound) && Queued(rel, next, seen, waiting, visited, queue)
    ensures Hunt(rel, from, queue, popped + {next}, visited, bound + 1)
  {
    forall x | x in visited
      ensures Within(rel, from, x, bound + 1)
    {
      if x in seen { WithinMore(rel, from, x, bound); } else { OneFurther(rel, from, next, x, bound); }
    }
  }

  lemma ExpandedSame<N(!new), V(!new)>(index: Index<N, V>, popped: set<N>, next: N)
    requires next !in index
    ensures Expanded(index, popped + {next}) == Expanded(index, popped)
  {
  }

  lemma ExpandedMore<N(!new), V(!new)>(index: Index<N, V>, popped: set<N>, next: N)
    requires next in index && next !in popped
    ensures |Expanded(index, popped + {next})| == |Expanded(index, popped)| + 1
  {
    assert Expanded(index, popped + {next}) == Expanded(index, popped) + {next};
  }

  lemma VisitedAreTargets<N(!new)>(index: Index<N, Edge<N>>, from: N, x: N, now: int)
    requires x == from || Reaches(Trusts(index, now), from, x)
    ensures x in {from} + Targets(index)
  {
    if x != from {
      var p :| IsPath(Trusts(index, now), p) && p[0] == from && p[|p| - 1] == x;
      assert Trusts(index, now)(p[|p| - 2], p[|p| - 2 + 1]);
    }
  }

  /** The end of the search without success. */
  lemma HuntEnds<N(!new)>(index: Index<N, Edge<N>>, from: N, to: N, queue: seq<N>, popped: set<N>, visited: set<N>,
                          depth: nat, now: int)
    requires Hunt(Trusts(index, now), from, queue, popped, visited, depth) && Clear(Trusts(index, now), to, popped, visited)
    requires from != to && depth == |Expanded(index, popped)|
    ensures queue == [] ==> !Reaches(Trusts(index, now), from, to)
    ensures depth <= |Sources(index, from, now)|
    ensures from in popped ==> !Live(index, from, to, now)
  {
    var rel := Trusts(index, now);
    assert Live(index, from, to, now) ==> rel(from, to);
    if queue == [] {
      forall p | IsPath(rel, p) && p[0] == from
        ensures p[|p| - 1] != to
      {
        StaysClear(rel, to, visited, p);
      }
    }
    forall x | x in Expanded(index, popped)
      ensures x in Sources(index, from, now)
    {
      WithinMore(rel, from, x, depth);
    }
    assert Expanded(index, popped) <= Sources(index, from, now);
    assert |Sources(index, from, now) - Expanded(index, popped)| == |Sources(index, from, now)| - |Expanded(index, popped)|;
  }

  lemma {:induction false} StaysClear<N(!new)>(rel: (N, N) -> bool, to: N, visited: set<N>, p: seq<N>)
    requires IsPath(rel, p) && p[0] in visited && p[0] != to && Clear(rel, to, visited, visited)
    ensures p[|p| - 1] != to
    decreases |p|
  {
    if |p| > 1 {
      assert rel(p[0], p[0 + 1]);
      SubPath(rel, p, 1, |p| - 1);
      StaysClear(rel, to, visited, p[1..|p| - 1 + 1]);
    }
  }
}
