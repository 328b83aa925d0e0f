/** Lists and the elements of them that pass a test. */
module Lists {
  import opened Graph

  function Keep<T>(xs: seq<T>, p: T -> bool): seq<T> {
    if xs == [] then []
    else Keep(xs[..|xs| - 1], p) + (if p(xs[|xs| - 1]) then [xs[|xs| - 1]] else [])
  }

  lemma KeepNext<T>(xs: seq<T>, i: nat, p: T -> bool)
    requires i < |xs|
    ensures Keep(xs[..i + 1], p) == Keep(xs[..i], p) + (if p(xs[i]) then [xs[i]] else [])
  {
    assert xs[..i + 1][..i] == xs[..i];
  }

  lemma {:induction false} KeepAll<T>(xs: seq<T>, p: T -> bool)
    requires forall x :: x in xs ==> p(x)
    ensures Keep(xs, p) == xs
    decreases |xs|
  {
    if xs != [] {
      KeepAll(xs[..|xs| - 1], p);
      assert xs == xs[..|xs| - 1] + [xs[|xs| - 1]];
    }
  }

  lemma {:induction false} KeepTwice<T(!new)>(xs: seq<T>, p: T -> bool, q: T -> bool, both: T -> bool)
    requires forall x :: both(x) <==> p(x) && q(x)
    ensures Keep(Keep(xs, p), q) == Keep(xs, both)
    decreases |xs|
  {
    if xs != [] {
      var front, last := xs[..|xs| - 1], xs[|xs| - 1];
      KeepTwice(front, p, q, both);
      var kept := Keep(front, p);
      assert (kept + [last])[..|kept|] == kept;
      assert kept + [] == kept;
    }
  }

  lemma {:induction false} InKeep<T>(xs: seq<T>, p: T -> bool, x: T)
    ensures x in Keep(xs, p) <==> x in xs && p(x)
    decreases |xs|
  {
    if xs != [] {
      InKeep(xs[..|xs| - 1], p, x);
      assert xs == xs[..|xs| - 1] + [xs[|xs| - 1]];
    }
  }

  /** Two tests keep the same list exactly when they agree on every element. */
  lemma KeepSame<T(!new)>(xs: seq<T>, p: T -> bool, q: T -> bool)
    ensures Keep(xs, p) == Keep(xs, q) <==> forall x :: x in xs ==> p(x) == q(x)
  {
    if forall x :: x in xs ==> p(x) == q(x) {
      KeepAgrees(xs, p, q);
    } else {
      var x :| x in xs && p(x) != q(x);
      InKeep(xs, p, x);
      InKeep(xs, q, x);
    }
  }

  lemma {:induction false} KeepAgrees<T>(xs: seq<T>, p: T -> bool, q: T -> bool)
    requires forall x :: x in xs ==> p(x) == q(x)
    ensures Keep(xs, p) == Keep(xs, q)
    decreases |xs|
  {
    if xs != [] { KeepAgrees(xs[..|xs| - 1], p, q); }
  }

  // ---------- ranking ----------

  ghost predicate Descending<T>(xs: seq<T>, key: T -> real) {
    forall i, j :: 0 <= i < j < |xs| ==> key(xs[i]) >= key(xs[j])
  }

  lemma Inserted<T>(xs: seq<T>, k: nat, x: T, key: T -> real)
    requires Descending(xs, key) && k <= |xs|
    requires forall m :: 0 <= m < k ==> key(xs[m]) >= key(x)
    requires k < |xs| ==> key(xs[k]) < key(x)
    ensures Descending(xs[..k] + [x] + xs[k..], key)
  {
    var ys := xs[..k] + [x] + xs[k..];
    forall i, j | 0 <= i < j < |ys|
      ensures key(ys[i]) >= key(ys[j])
    {
      if i < k {
        assert ys[i] == xs[i];
        if k < j { assert ys[j] == xs[j - 1]; }
      } else if k < i {
        assert ys[i] == xs[i - 1] && ys[j] == xs[j - 1];
      } else {
        assert ys[j] == xs[j - 1];
        if k < j - 1 { assert key(xs[k]) >= key(xs[j - 1]); }
      }
    }
  }

  lemma InsertedElements<T>(xs: seq<T>, k: nat, x: T)
    requires k <= |xs|
    ensures multiset(xs[..k] + [x] + xs[k..]) == multiset(xs) + multiset{x}
  {
    assert xs == xs[..k] + xs[k..];
  }

  method Insert<T>(xs: seq<T>, x: T, key: T -> real) returns (after: seq<T>)
    requires Descending(xs, key)
    ensures Descending(after, key) && multiset(after) == multiset(xs) + multiset{x}
  {
    var k := 0;
    while k < |xs| && key(xs[k]) >= key(x)
      invariant k <= |xs| && forall m :: 0 <= m < k ==> key(xs[m]) >= key(x)
    {
      k := k + 1;
    }
    Inserted(xs, k, x, key);
    InsertedElements(xs, k, x);
    after := xs[..k] + [x] + xs[k..];
  }

  /** The same elements, the largest key first; ties in any order. */
  method Rank<T>(xs: seq<T>, key: T -> real) returns (ranked: seq<T>)
    ensures Descending(ranked, key) && multiset(ranked) == multiset(xs)
  {
    ranked := [];
    for i := 0 to |xs|
      invariant Descending(ranked, key) && multiset(ranked) == multiset(xs[..i])
    {
      assert xs[..i + 1] == xs[..i] + [xs[i]];
      ranked := Insert(ranked, xs[i], key);
    }
    assert xs[..|xs|] == xs;
  }

  function Positive<T>(key: T -> real): T -> bool {
    (x: T) => key(x) > 0.0
  }

  /** The elements with a positive key, ranked. */
  method RankPositive<T>(xs: seq<T>, key: T -> real) returns (ranked: seq<T>)
    ensures Descending(ranked, key) && multiset(ranked) == multiset(Keep(xs, Positive(key)))
  {
    var result: seq<T> := [];
    for i := 0 to |xs|
      invariant result == Keep(xs[..i], Positive(key))
    {
      KeepNext(xs, i, Positive(key));
      if key(xs[i]) > 0.0 {
        result := result + [xs[i]];
      }
    }
    assert xs[..|xs|] == xs;
    ranked := Rank(result, key);
  }

  // ---------- grouping ----------

  function HasKey<T, K(==)>(key: T -> K, k: K): T -> bool {
    (x: T) => key(x) == k
  }

  lemma GroupNext<T(!new), K(!new)>(xs: seq<T>, i: nat, key: T -> K, groups: map<K, seq<T>>)
    requires i < |xs|
    requires forall k :: k in groups ==> groups[k] == Keep(xs[..i], HasKey(key, k))
    requires forall k :: k in groups <==> exists j :: 0 <= j < i && key(xs[j]) == k
    ensures
      var k := key(xs[i]);
      var later := groups[k := (if k in groups then groups[k] else []) + [xs[i]]];
      && (forall m :: m in later ==> later[m] == Keep(xs[..i + 1], HasKey(key, m)))
      && (forall m :: m in later <==> exists j :: 0 <= j < i + 1 && key(xs[j]) == m)
  {
    var k := key(xs[i]);
    forall m
      ensures Keep(xs[..i + 1], HasKey(key, m)) == Keep(xs[..i], HasKey(key, m)) + (if key(xs[i]) == m then [xs[i]] else [])
    {
      KeepNext(xs, i, HasKey(key, m));
    }
    if k !in groups {
      KeepNone(xs[..i], HasKey(key, k));
    }
  }

  lemma {:induction false} KeepNone<T>(xs: seq<T>, p: T -> bool)
    requires forall x :: x in xs ==> !p(x)
    ensures Keep(xs, p) == []
    decreases |xs|
  {
    if xs != [] { KeepNone(xs[..|xs| - 1], p); }
  }

  /** The elements by key, each group in the order of the list. */
  method GroupBy<T(!new), K(==, !new)>(xs: seq<T>, key: T -> K) returns (groups: map<K, seq<T>>)
    ensures forall k :: k in groups ==> groups[k] == Keep(xs, HasKey(key, k))
    ensures forall k :: k in groups <==> exists x :: x in xs && key(x) == k
  {
    groups := map[];
    for i := 0 to |xs|
      invariant forall k :: k in groups ==> groups[k] == Keep(xs[..i], HasKey(key, k))
      invariant forall k :: k in groups <==> exists j :: 0 <= j < i && key(xs[j]) == k
    {
      GroupNext(xs, i, key, groups);
      var k := key(xs[i]);
      groups := groups[k := (if k in groups then groups[k] else []) + [xs[i]]];
    }
    assert xs[..|xs|] == xs;
    assert forall j :: 0 <= j < |xs| ==> xs[j] in xs;
  }

  function Positions<T>(xs: seq<T>, p: T -> bool): set<int> {
    set i | 0 <= i < |xs| && p(xs[i])
  }

  /** As many elements are kept as pass the test. */
  lemma {:induction false} KeepCount<T>(xs: seq<T>, p: T -> bool)
    ensures |Keep(xs, p)| == |Positions(xs, p)|
    decreases |xs|
  {
    if xs == [] {
      assert Positions(xs, p) == {};
    } else {
      var n := |xs| - 1;
      var front := xs[..n];
      KeepCount(front, p);
      assert Positions(xs, p) == Positions(front, p) + if p(xs[n]) then {n} else {};
    }
  }

  lemma {:induction false} KeepDistinct<T(!new)>(xs: seq<T>, p: T -> bool)
    requires Distinct(xs)
    ensures Distinct(Keep(xs, p))
    decreases |xs|
  {
    if xs != [] {
      var front, last := xs[..|xs| - 1], xs[|xs| - 1];
      KeepDistinct(front, p);
      InKeep(front, p, last);
      assert last !in front;
    }
  }
}
