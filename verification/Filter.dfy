/** Which nodes may run a unit (scheduler/internal/scheduler/filter.go, and nodePassesFilter
    in assigner.go): a pipeline over lists for pushing, one test for pulling. */
module NodeFilter {
  import opened Lists
  import opened Model

  /** What a filter run depends on.  How a specification is compared with a node's free
      resources and whether trust reaches a node are left open; `registry` holds the
      registered nodes. */
  datatype Request = Request(
    spec: Option<ResourceSpec>, owner: string, allowSelf: bool, registry: map<string, Node>,
    fits: (Resources, Resources) -> bool, reach: (string, string) -> bool)

  predicate Up(n: Node) {
    n.status == Online || n.status == Busy
  }

  /** A node that never reported capabilities counts as having them all. */
  predicate Capable(n: Node, need: seq<string>) {
    n.capabilities.None? || forall c :: c in need ==> c in n.capabilities.value
  }

  predicate NotSelf(q: Request, n: Node) {
    n.id == q.owner ==> q.allowSelf
  }

  predicate Trusted(q: Request, n: Node) {
    n.id == q.owner || q.reach(q.owner, n.id)
  }

  // ---------- the list pipeline ----------

  function IsUp(): Node -> bool {
    (n: Node) => Up(n)
  }

  function HasResources(q: Request): Node -> bool {
    (n: Node) => q.spec.Some? ==> n.resources.Some? && q.fits(n.resources.value, q.spec.value.needs)
  }

  function HasCapabilities(q: Request): Node -> bool {
    (n: Node) => q.spec.Some? ==> Capable(n, q.spec.value.capabilities)
  }

  function IsTrusted(q: Request): Node -> bool {
    (n: Node) => q.owner != "" ==> NotSelf(q, n) && Trusted(q, n)
  }

  function NotBlocked(q: Request): Node -> bool {
    (n: Node) => q.owner != "" && q.owner in q.registry ==>
      q.owner !in n.blockList && n.id !in q.registry[q.owner].blockList
  }

  function Pipeline(q: Request): Node -> bool {
    (n: Node) => IsUp()(n) && HasResources(q)(n) && HasCapabilities(q)(n) && IsTrusted(q)(n) && NotBlocked(q)(n)
  }

  method Contains(list: seq<string>, target: string) returns (found: bool)
    ensures found <==> target in list
  {
    for i := 0 to |list|
      invariant target !in list[..i]
    {
      if list[i] == target {
        return true;
      }
      assert list[..i + 1] == list[..i] + [list[i]];
    }
    assert list[..|list|] == list;
    found := false;
  }

  method HasAllCapabilities(n: Node, need: seq<string>) returns (ok: bool)
    ensures ok <==> Capable(n, need)
    ensures ok <==> n.capabilities.None? || forall k :: 0 <= k < |need| ==> need[k] in n.capabilities.value
  {
    if |need| == 0 || n.capabilities.None? {
      return true;
    }
    var have := n.capabilities.value;
    var haveSet: set<string> := {};
    for i := 0 to |have|
      invariant forall c :: c in haveSet <==> c in have[..i]
    {
      haveSet := haveSet + {have[i]};
      assert have[..i + 1] == have[..i] + [have[i]];
    }
    assert have[..|have|] == have;
    for i := 0 to |need|
      invariant forall k :: 0 <= k < i ==> need[k] in have
    {
      if need[i] !in haveSet {
        return false;
      }
    }
    ok := true;
  }

  method FilterOnline(nodes: seq<Node>) returns (result: seq<Node>)
    ensures result == Keep(nodes, IsUp())
  {
    result := [];
    for i := 0 to |nodes|
      invariant result == Keep(nodes[..i], IsUp())
    {
      KeepNext(nodes, i, IsUp());
      if nodes[i].status == Online || nodes[i].status == Busy {
        result := result + [nodes[i]];
      }
    }
    assert nodes[..|nodes|] == nodes;
  }

  method FilterResources(q: Request, nodes: seq<Node>) returns (result: seq<Node>)
    ensures result == Keep(nodes, HasResources(q))
  {
    if q.spec.None? {
      KeepAll(nodes, HasResources(q));
      return nodes;
    }
    result := [];
    for i := 0 to |nodes|
      invariant result == Keep(nodes[..i], HasResources(q))
    {
      KeepNext(nodes, i, HasResources(q));
      if nodes[i].resources.Some? && q.fits(nodes[i].resources.value, q.spec.value.needs) {
        result := result + [nodes[i]];
      }
    }
    assert nodes[..|nodes|] == nodes;
  }

  method FilterCapabilities(q: Request, nodes: seq<Node>) returns (result: seq<Node>)
    ensures result == Keep(nodes, HasCapabilities(q))
  {
    if q.spec.None? || |q.spec.value.capabilities| == 0 {
      KeepAll(nodes, HasCapabilities(q));
      return nodes;
    }
    result := [];
    for i := 0 to |nodes|
      invariant result == Keep(nodes[..i], HasCapabilities(q))
    {
      KeepNext(nodes, i, HasCapabilities(q));
      var ok := HasAllCapabilities(nodes[i], q.spec.value.capabilities);
      if ok {
        result := result + [nodes[i]];
      }
    }
    assert nodes[..|nodes|] == nodes;
  }

  method FilterTrust(q: Request, nodes: seq<Node>) returns (result: seq<Node>)
    ensures result == Keep(nodes, IsTrusted(q))
  {
    if q.owner == "" {
      KeepAll(nodes, IsTrusted(q));
      return nodes;
    }
    result := [];
    for i := 0 to |nodes|
      invariant result == Keep(nodes[..i], IsTrusted(q))
    {
      KeepNext(nodes, i, IsTrusted(q));
      if nodes[i].id == q.owner && !q.allowSelf {
        continue;
      }
      if nodes[i].id == q.owner || q.reach(q.owner, nodes[i].id) {
        result := result + [nodes[i]];
      }
    }
    assert nodes[..|nodes|] == nodes;
  }

  method FilterBlocklist(q: Request, nodes: seq<Node>) returns (result: seq<Node>)
    ensures result == Keep(nodes, NotBlocked(q))
  {
    if q.owner == "" || q.owner !in q.registry {
      KeepAll(nodes, NotBlocked(q));
      return nodes;
    }
    result := [];
    for i := 0 to |nodes|
      invariant result == Keep(nodes[..i], NotBlocked(q))
    {
      KeepNext(nodes, i, NotBlocked(q));
      var blocks := Contains(nodes[i].blockList, q.owner);
      if blocks {
        continue;
      }
      var blocked := Contains(q.registry[q.owner].blockList, nodes[i].id);
      if blocked {
        continue;
      }
      result := result + [nodes[i]];
    }
    assert nodes[..|nodes|] == nodes;
  }

  /** The five stages keep, in order, exactly the nodes that pass all five tests. */
  method Filter(q: Request, nodes: seq<Node>) returns (result: seq<Node>)
    ensures result == Keep(nodes, Pipeline(q))
  {
    result := FilterOnline(nodes);
    result := FilterResources(q, result);
    result := FilterCapabilities(q, result);
    result := FilterTrust(q, result);
    result := FilterBlocklist(q, result);
    FiveStages(q, nodes);
  }

  lemma PipelineIsUp(q: Request, n: Node)
    ensures Pipeline(q)(n) ==> Up(n)
  {
    assert Pipeline(q)(n) ==> IsUp()(n);
  }

  lemma FiveStages(q: Request, nodes: seq<Node>)
    ensures Keep(Keep(Keep(Keep(Keep(nodes, IsUp()), HasResources(q)), HasCapabilities(q)), IsTrusted(q)), NotBlocked(q))
         == Keep(nodes, Pipeline(q))
  {
    var two: Node -> bool := n => IsUp()(n) && HasResources(q)(n);
    var three: Node -> bool := n => two(n) && HasCapabilities(q)(n);
    var four: Node -> bool := n => three(n) && IsTrusted(q)(n);
    KeepTwice(nodes, IsUp(), HasResources(q), two);
    KeepTwice(nodes, two, HasCapabilities(q), three);
    KeepTwice(nodes, three, IsTrusted(q), four);
    KeepTwice(nodes, four, NotBlocked(q), Pipeline(q));
  }

  // ---------- the single test ----------

  function Single(q: Request): Node -> bool {
    (n: Node) => PassesOne(q, n)
  }

  predicate PassesOne(q: Request, n: Node) {
    && Up(n)
    && (q.spec.Some? && n.resources.Some? ==> q.fits(n.resources.value, q.spec.value.needs))
    && (q.spec.Some? ==> Capable(n, q.spec.value.capabilities))
    && (q.owner != "" ==>
          && NotSelf(q, n) && Trusted(q, n) && q.owner !in n.blockList
          && (q.owner in q.registry ==> n.id !in q.registry[q.owner].blockList))
  }

  method NodePassesFilter(q: Request, n: Node) returns (ok: bool)
    ensures ok == PassesOne(q, n)
  {
    if n.status != Online && n.status != Busy {
      return false;
    }
    if q.spec.Some? && n.resources.Some? && !q.fits(n.resources.value, q.spec.value.needs) {
      return false;
    }
    if q.spec.Some? && |q.spec.value.capabilities| > 0 {
      var capable := HasAllCapabilities(n, q.spec.value.capabilities);
      if !capable {
        return false;
      }
    }
    if q.owner != "" && n.id == q.owner && !q.allowSelf {
      return false;
    }
    if q.owner != "" && n.id != q.owner && !q.reach(q.owner, n.id) {
      return false;
    }
    if q.owner != "" {
      var blocks := Contains(n.blockList, q.owner);
      if blocks {
        return false;
      }
      if q.owner in q.registry {
        var blocked := Contains(q.registry[q.owner].blockList, n.id);
        if blocked {
          return false;
        }
      }
    }
    ok := true;
  }

  // ---------- where the two agree ----------

  /** The pipeline drops a node without reported resources; the single test lets it pass. */
  predicate Unreported(q: Request, n: Node) {
    q.spec.Some? && n.resources.None?
  }

  /** The single test honours the node's block list for an owner that is not registered;
      the pipeline then skips both block lists. */
  predicate BlocksStranger(q: Request, n: Node) {
    q.owner != "" && q.owner !in q.registry && q.owner in n.blockList
  }

  /** Passes every test that the two have in common. */
  predicate PassesShared(q: Request, n: Node) {
    && Up(n)
    && (q.spec.Some? && n.resources.Some? ==> q.fits(n.resources.value, q.spec.value.needs))
    && (q.spec.Some? ==> Capable(n, q.spec.value.capabilities))
    && (q.owner != "" ==> NotSelf(q, n) && Trusted(q, n))
    && (q.owner != "" && q.owner in q.registry ==>
          q.owner !in n.blockList && n.id !in q.registry[q.owner].blockList)
  }

  /** The list pipeline keeps exactly the nodes of the single test, unless a node that is
      otherwise fine has no reported resources, or blocks an owner that is not registered,
      but not both. */
  lemma PushPullAgree(q: Request, nodes: seq<Node>)
    ensures Keep(nodes, Pipeline(q)) == Keep(nodes, Single(q)) <==>
      forall n :: n in nodes && PassesShared(q, n) ==> Unreported(q, n) == BlocksStranger(q, n)
  {
    KeepSame(nodes, Pipeline(q), Single(q));
    forall n
      ensures Pipeline(q)(n) == (PassesShared(q, n) && !Unreported(q, n))
      ensures Single(q)(n) == (PassesShared(q, n) && !BlocksStranger(q, n))
    {
      assert Pipeline(q)(n) == (IsUp()(n) && HasResources(q)(n) && HasCapabilities(q)(n) && IsTrusted(q)(n) && NotBlocked(q)(n));
      assert NotBlocked(q)(n) == (q.owner != "" && q.owner in q.registry ==>
        q.owner !in n.blockList && n.id !in q.registry[q.owner].blockList);
      assert HasResources(q)(n) == (q.spec.Some? ==> n.resources.Some? && q.fits(n.resources.value, q.spec.value.needs));
    }
  }

  /** In particular whenever every node has reported its resources and the owner is empty or
      registered. */
  lemma PushPullAgreeNormally(q: Request, nodes: seq<Node>)
    requires forall n :: n in nodes ==> n.resources.Some?
    requires q.owner == "" || q.owner in q.registry
    ensures Keep(nodes, Pipeline(q)) == Keep(nodes, Single(q))
  {
    PushPullAgree(q, nodes);
  }
}
