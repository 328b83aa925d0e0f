/** Paths, cycles and distinct sequences over any kind of node. */
module Graph {
  ghost predicate IsPath<N(!new)>(rel: (N, N) -> bool, p: seq<N>) {
    |p| >= 1 && forall i :: 0 <= i < |p| - 1 ==> rel(p[i], p[i + 1])
  }

  lemma SubPath<N(!new)>(rel: (N, N) -> bool, p: seq<N>, i: nat, j: nat)
    requires IsPath(rel, p) && i <= j < |p|
    ensures IsPath(rel, p[i..j + 1])
  {
    var q := p[i..j + 1];
    forall k | 0 <= k < |q| - 1
      ensures rel(q[k], q[k + 1])
    {
      assert rel(p[i + k], p[i + k + 1]);
    }
  }

  ghost predicate IsCycle<N(!new)>(rel: (N, N) -> bool, p: seq<N>) {
    |p| >= 2 && IsPath(rel, p) && p[0] == p[|p| - 1]
  }

  ghost predicate Acyclic<N(!new)>(rel: (N, N) -> bool) {
    !exists p :: IsCycle(rel, p)
  }

  ghost predicate Distinct<N>(xs: seq<N>) {
    forall i, j :: 0 <= i < j < |xs| ==> xs[i] != xs[j]
  }

  function Elements<N>(xs: seq<N>): set<N> {
    set x | x in xs
  }

  lemma ElementsOfFront<N>(xs: seq<N>)
    requires xs != []
    ensures Elements(xs) == Elements(xs[..|xs| - 1]) + {xs[|xs| - 1]}
  {
    assert xs == xs[..|xs| - 1] + [xs[|xs| - 1]];
  }

  lemma DistinctFront<N>(xs: seq<N>)
    requires xs != []
    ensures Distinct(xs) <==> Distinct(xs[..|xs| - 1]) && xs[|xs| - 1] !in xs[..|xs| - 1]
  {
    var front, last := xs[..|xs| - 1], xs[|xs| - 1];
    assert xs == front + [last];
  }

  lemma {:induction false} ElementCount<N>(xs: seq<N>)
    ensures |Elements(xs)| <= |xs|
    ensures |Elements(xs)| == |xs| <==> Distinct(xs)
    decreases |xs|
  {
    if xs != [] {
      var front, last := xs[..|xs| - 1], xs[|xs| - 1];
      ElementsOfFront(xs);
      ElementCount(front);
      if last in front {
        var i :| 0 <= i < |front| && front[i] == last;
        assert xs[i] == xs[|xs| - 1];
        assert Elements(xs) == Elements(front);
        assert !Distinct(xs);
      } else {
        assert Elements(xs) == Elements(front) + {last};
        DistinctFront(xs);
      }
    }
  }

  lemma NextElement<N>(xs: seq<N>, i: nat)
    requires i < |xs|
    ensures Elements(xs[..i + 1]) == Elements(xs[..i]) + {xs[i]}
    ensures Distinct(xs) ==> xs[i] !in Elements(xs[..i])
  {
    assert xs[..i + 1] == xs[..i] + [xs[i]];
  }

  lemma SameElements<T(!new)>(a: seq<T>, b: seq<T>)
    requires Distinct(a) && Distinct(b) && forall x :: x in a <==> x in b
    ensures multiset(a) == multiset(b)
  {
    forall x
      ensures multiset(a)[x] == multiset(b)[x]
    {
      DistinctMultiset(a, x);
      DistinctMultiset(b, x);
    }
  }

  lemma {:induction false} DistinctMultiset<T>(a: seq<T>, x: T)
    requires Distinct(a)
    ensures multiset(a)[x] == if x in a then 1 else 0
    decreases |a|
  {
    if a != [] {
      var k := |a| - 1;
      DistinctFront(a);
      assert a == a[..k] + [a[k]];
      DistinctMultiset(a[..k], x);
    }
  }

  /** A permutation of distinct elements is distinct. */
  lemma PermutationDistinct<T(!new)>(a: seq<T>, b: seq<T>)
    requires Distinct(a) && multiset(a) == multiset(b)
    ensures Distinct(b)
  {
    forall i, j | 0 <= i < j < |b|
      ensures b[i] != b[j]
    {
      assert b == b[..j] + [b[j]] + b[j + 1..];
      assert b[i] in b[..j];
      assert multiset(b) == multiset(b[..j]) + multiset{b[j]} + multiset(b[j + 1..]);
      DistinctMultiset(a, b[i]);
    }
  }

  lemma SubsetSameSize<N>(a: set<N>, b: set<N>)
    requires a <= b && |a| >= |b|
    ensures a == b
  {
    assert |b - a| == |b| - |a|;
    assert b - a == {};
  }

  lemma {:induction false} Pigeonhole<N>(p: seq<N>, s: set<N>) returns (i: nat, j: nat)
    requires |p| > |s| && forall k :: 0 <= k < |p| ==> p[k] in s
    ensures i < j < |p| && p[i] == p[j]
    decreases |p|
  {
    var last := |p| - 1;
    if k :| 0 <= k < last && p[k] == p[last] {
      i, j := k, last;
    } else {
      assert p[last] in s;
      i, j := Pigeonhole(p[..last], s - {p[last]});
    }
  }

  ghost predicate GoesOn<N(!new)>(rel: (N, N) -> bool, s: set<N>, a: N) {
    exists b :: b in s && rel(a, b)
  }

  /** From any node of a set in which every node has a successor, one can walk any number of
      steps inside the set. */
  lemma {:induction false} Walk<N(!new)>(rel: (N, N) -> bool, s: set<N>, start: N, n: nat) returns (p: seq<N>)
    requires start in s && forall a {:trigger GoesOn(rel, s, a)} :: a in s ==> GoesOn(rel, s, a)
    ensures |p| == n + 1 && p[0] == start && IsPath(rel, p) && forall i :: 0 <= i <= n ==> p[i] in s
    decreases n
  {
    if n == 0 {
      p := [start];
    } else {
      assert GoesOn(rel, s, start);
      var next :| next in s && rel(start, next);
      var q := Walk(rel, s, next, n - 1);
      p := [start] + q;
    }
  }

  /** So such a set holds a cycle. */
  lemma CycleIn<N(!new)>(rel: (N, N) -> bool, s: set<N>)
    requires s != {} && forall a {:trigger GoesOn(rel, s, a)} :: a in s ==> GoesOn(rel, s, a)
    ensures !Acyclic(rel)
  {
    var start :| start in s;
    var p := Walk(rel, s, start, |s|);
    var i, j := Pigeonhole(p, s);
    var c := p[i..j + 1];
    SubPath(rel, p, i, j);
    assert IsCycle(rel, c);
  }

  /** The relation only leads from later elements of `order` to earlier ones. */
  ghost predicate Respects<N(!new)>(rel: (N, N) -> bool, order: seq<N>) {
    && Distinct(order)
    && forall a, b :: rel(a, b) ==> exists i, j :: 0 <= j < i < |order| && order[i] == a && order[j] == b
  }

  lemma {:induction false} Descends<N(!new)>(rel: (N, N) -> bool, order: seq<N>, p: seq<N>, i: nat)
    requires Respects(rel, order) && IsPath(rel, p) && |p| >= 2 && i < |order| && order[i] == p[0]
    ensures exists j :: 0 <= j < i && order[j] == p[|p| - 1]
    decreases |p|
  {
    assert rel(p[0], p[0 + 1]);
    var k, j :| 0 <= j < k < |order| && order[k] == p[0] && order[j] == p[1];
    if |p| > 2 {
      var q := p[1..];
      SubPath(rel, p, 1, |p| - 1);
      assert q == p[1..|p| - 1 + 1];
      Descends(rel, order, q, j);
    }
  }

  /** A relation that respects an order has no cycle. */
  lemma OrderIsAcyclic<N(!new)>(rel: (N, N) -> bool, order: seq<N>)
    requires Respects(rel, order)
    ensures Acyclic(rel)
  {
    forall p | IsCycle(rel, p)
      ensures false
    {
      assert rel(p[0], p[0 + 1]);
      var i :| 0 <= i < |order| && order[i] == p[0];
      Descends(rel, order, p, i);
    }
  }

  // ---------- reachability and breadth-first search ----------

  /** A walk of any number of steps, also none, leads from `a` to `b`. */
  ghost predicate Reaches<N(!new)>(rel: (N, N) -> bool, a: N, b: N) {
    exists p :: IsPath(rel, p) && p[0] == a && p[|p| - 1] == b
  }

  lemma ReachesSelf<N(!new)>(rel: (N, N) -> bool, a: N)
    ensures Reaches(rel, a, a)
  {
    assert IsPath(rel, [a]);
  }

  lemma ReachesNext<N(!new)>(rel: (N, N) -> bool, a: N, b: N, c: N)
    requires Reaches(rel, a, b) && rel(b, c)
    ensures Reaches(rel, a, c)
  {
    var p :| IsPath(rel, p) && p[0] == a && p[|p| - 1] == b;
    var q := p + [c];
    forall i | 0 <= i < |q| - 1
      ensures rel(q[i], q[i + 1])
    {
      if i < |p| - 1 { assert rel(p[i], p[i + 1]); }
    }
    assert IsPath(rel, q);
  }

  /** A set closed under the relation holds everything its members reach. */
  lemma {:induction false} ClosedHolds<N(!new)>(rel: (N, N) -> bool, closed: set<N>, p: seq<N>)
    requires IsPath(rel, p) && p[0] in closed
    requires forall x, y :: x in closed && rel(x, y) ==> y in closed
    ensures p[|p| - 1] in closed
    decreases |p|
  {
    if |p| > 1 {
      assert rel(p[0], p[0 + 1]);
      SubPath(rel, p, 1, |p| - 1);
      ClosedHolds(rel, closed, p[1..|p| - 1 + 1]);
    }
  }

  /** Halfway through a search: `current` is the node whose neighbours are being visited. */
  ghost predicate Searching<N(!new)>(rel: (N, N) -> bool, start: N, queue: seq<N>, visited: set<N>, current: set<N>) {
    && start in visited
    && (forall x :: x in queue ==> x in visited)
    && (forall x :: x in visited ==> Reaches(rel, start, x))
    && (forall x, y :: x in visited && x !in queue && x !in current && rel(x, y) ==> y in visited)
  }

  lemma SearchStarts<N(!new)>(rel: (N, N) -> bool, start: N)
    ensures Searching(rel, start, [start], {start}, {})
  {
    ReachesSelf(rel, start);
  }

  lemma SearchPops<N(!new)>(rel: (N, N) -> bool, start: N, queue: seq<N>, visited: set<N>)
    requires Searching(rel, start, queue, visited, {}) && queue != []
    ensures Searching(rel, start, queue[1..], visited, {queue[0]})
  {
    assert queue == [queue[0]] + queue[1..];
  }

  lemma SearchVisits<N(!new)>(rel: (N, N) -> bool, start: N, queue: seq<N>, visited: set<N>, current: N, next: N)
    requires Searching(rel, start, queue, visited, {current}) && current in visited && rel(current, next)
    ensures Searching(rel, start, queue + [next], visited + {next}, {current})
  {
    ReachesNext(rel, start, current, next);
  }

  lemma SearchFinishes<N(!new)>(rel: (N, N) -> bool, start: N, queue: seq<N>, visited: set<N>, current: N)
    requires Searching(rel, start, queue, visited, {current})
    requires forall y :: rel(current, y) ==> y in visited
    ensures Searching(rel, start, queue, visited, {})
  {
  }

  lemma SearchEnds<N(!new)>(rel: (N, N) -> bool, start: N, visited: set<N>)
    requires Searching(rel, start, [], visited, {})
    ensures forall x :: x in visited <==> Reaches(rel, start, x)
  {
    forall x | Reaches(rel, start, x)
      ensures x in visited
    {
      var p :| IsPath(rel, p) && p[0] == start && p[|p| - 1] == x;
      ClosedHolds(rel, visited, p);
    }
  }
}
