/** The check a group has to pass before its child-group references are written: a depth-first
    walk over the stored references with a memo that keeps, for each group, the deepest position
    it was reached at.

    It is proved to decide a statement about paths in the stored graph, for every graph, and the
    writes it lets through are proved to keep the graph free of cycles. */
module GroupNesting {

  /** Largest number of groups on a chain of child references. */
  const MAX_DEPTH: nat := 8

  /** Group id to the ids its child-group items refer to, in the order the rows are read. */
  type Graph = map<int, seq<int>>

  function Edges(g: Graph, x: int): seq<int> { if x in g then g[x] else [] }

  ghost predicate IsWalk(g: Graph, p: seq<int>) {
    && p != []
    && forall i :: 0 <= i < |p| - 1 ==> p[i + 1] in Edges(g, p[i])
  }

  /** Every walk from `x`, entered at position `depth`, stays within the bound and avoids `target`. */
  ghost predicate Fits(g: Graph, target: int, x: int, depth: nat) {
    forall p :: IsWalk(g, p) && p[0] == x ==> depth + |p| - 1 <= MAX_DEPTH && target !in p
  }

  // ---------- Walks ----------

  lemma PrependWalk(g: Graph, x: int, p: seq<int>)
    requires IsWalk(g, p) && p[0] in Edges(g, x)
    ensures IsWalk(g, [x] + p)
  {
    var q := [x] + p;
    forall i | 0 <= i < |q| - 1 ensures q[i + 1] in Edges(g, q[i]) {
      assert q[i + 1] == p[i];
      assert i > 0 ==> q[i] == p[i - 1] && p[i - 1 + 1] == p[i];
    }
  }

  lemma SubWalk(g: Graph, p: seq<int>, lo: nat, hi: nat)
    requires IsWalk(g, p) && lo < hi <= |p|
    ensures IsWalk(g, p[lo..hi])
  {
    var q := p[lo..hi];
    forall i | 0 <= i < |q| - 1 ensures q[i + 1] in Edges(g, q[i]) {
      assert q[i + 1] == p[lo + i + 1] && q[i] == p[lo + i];
    }
  }

  lemma JoinWalks(g: Graph, p: seq<int>, q: seq<int>)
    requires IsWalk(g, p) && IsWalk(g, q) && p[|p| - 1] == q[0]
    ensures IsWalk(g, p + q[1..])
  {
    var r := p + q[1..];
    forall i | 0 <= i < |r| - 1 ensures r[i + 1] in Edges(g, r[i]) {
      if i < |p| - 1 {
        assert r[i] == p[i] && r[i + 1] == p[i + 1];
      } else {
        assert r[i] == q[i - |p| + 1] && r[i + 1] == q[i - |p| + 1 + 1];
      }
    }
  }

  /** A group fits when it is inside the bound, is not the target, and its children fit one deeper. */
  lemma FitsFromChildren(g: Graph, target: int, x: int, depth: nat)
    requires depth <= MAX_DEPTH && x != target
    requires forall c :: c in Edges(g, x) ==> Fits(g, target, c, depth + 1)
    ensures Fits(g, target, x, depth)
  {
    forall p | IsWalk(g, p) && p[0] == x ensures depth + |p| - 1 <= MAX_DEPTH && target !in p {
      if |p| > 1 {
        SubWalk(g, p, 1, |p|);
        assert p[1..|p|] == p[1..] && p[0 + 1] in Edges(g, x);
        assert Fits(g, target, p[1], depth + 1);
        assert p == [x] + p[1..];
      }
    }
  }

  // ---------- The walk with its memo ----------

  datatype Verdict = Accepted | TooDeep | Cycle | SelfReference | ChildNotFound

  /** What a memo entry promises: the group fits at the recorded position, unless it is still being
      walked, and then the record is above the current position. */
  ghost predicate Recorded(g: Graph, target: int, memo: map<int, nat>, pending: set<int>, depth: nat) {
    forall x :: x in memo ==> Fits(g, target, x, memo[x]) || (x in pending && memo[x] < depth)
  }

  /** Entries that a walk has changed are sound. */
  ghost predicate Extends(g: Graph, target: int, before: map<int, nat>, after: map<int, nat>) {
    && before.Keys <= after.Keys
    && forall x :: x in after ==> (x in before && after[x] == before[x]) || Fits(g, target, x, after[x])
  }

  /** A walk that shows why a group is rejected at position `depth`. */
  ghost predicate Overflows(g: Graph, x: int, depth: nat) {
    exists p :: IsWalk(g, p) && p[0] == x && depth + |p| - 1 > MAX_DEPTH
  }

  ghost predicate Reaches(g: Graph, x: int, target: int) {
    exists p :: IsWalk(g, p) && p[0] == x && target in p
  }

  /** While a group is walked, its own record is pending for everything below it. */
  lemma StillRecorded(g: Graph, target: int, memo: map<int, nat>, pending: set<int>, child: int, depth: nat,
      now: map<int, nat>)
    requires Recorded(g, target, memo, pending, depth) && Extends(g, target, memo[child := depth], now)
    ensures Recorded(g, target, now, pending + {child}, depth + 1)
  {
  }

  lemma ExtendsTwice(g: Graph, target: int, a: map<int, nat>, b: map<int, nat>, c: map<int, nat>)
    requires Extends(g, target, a, b) && Extends(g, target, b, c)
    ensures Extends(g, target, a, c)
  {
  }

  /** Once the group is known to fit, its own record is sound as well. */
  lemma ExtendsWithOwn(g: Graph, target: int, memo: map<int, nat>, child: int, depth: nat, now: map<int, nat>)
    requires Extends(g, target, memo[child := depth], now) && Fits(g, target, child, depth)
    ensures Extends(g, target, memo, now)
  {
  }

  lemma WalkOfOne(g: Graph, x: int, depth: nat)
    ensures depth > MAX_DEPTH ==> Overflows(g, x, depth)
    ensures Reaches(g, x, x)
  {
    assert IsWalk(g, [x]) && [x][0] == x;
  }

  lemma RejectedThroughChild(g: Graph, target: int, x: int, c: int, depth: nat)
    requires c in Edges(g, x)
    ensures Overflows(g, c, depth + 1) ==> Overflows(g, x, depth)
    ensures Reaches(g, c, target) ==> Reaches(g, x, target)
  {
    if Overflows(g, c, depth + 1) {
      var p :| IsWalk(g, p) && p[0] == c && depth + 1 + |p| - 1 > MAX_DEPTH;
      PrependWalk(g, x, p);
      assert ([x] + p)[0] == x;
    }
    if Reaches(g, c, target) {
      var p :| IsWalk(g, p) && p[0] == c && target in p;
      PrependWalk(g, x, p);
      assert ([x] + p)[0] == x;
    }
  }

  ghost predicate FirstFit(g: Graph, target: int, edges: seq<int>, n: nat, depth: nat) {
    n <= |edges| && forall k :: 0 <= k < n ==> Fits(g, target, edges[k], depth)
  }

  class Validator {
    const graph: Graph
    const target: int
    var depthByGroup: map<int, nat>

    constructor (graph: Graph, target: int)
      ensures this.graph == graph && this.target == target && depthByGroup == map[]
    {
      this.graph, this.target := graph, target;
      depthByGroup := map[];
    }

    /** Walks everything below `child`, entered at position `depth`. The stored references are
        visited in the order they are read; `pending` holds the groups whose walk is still open. */
    method Walk(child: int, depth: nat, ghost pending: set<int>) returns (v: Verdict)
      requires 1 <= depth <= MAX_DEPTH + 1
      requires Recorded(graph, target, depthByGroup, pending, depth)
      modifies this
      ensures v in {Accepted, TooDeep, Cycle}
      ensures v == Accepted ==> Fits(graph, target, child, depth)
      ensures v == Accepted ==> Extends(graph, target, old(depthByGroup), depthByGroup)
      ensures v == TooDeep ==> Overflows(graph, child, depth)
      ensures v == Cycle ==> Reaches(graph, child, target)
      decreases MAX_DEPTH + 1 - depth
    {
      WalkOfOne(graph, child, depth);
      if depth > MAX_DEPTH {
        return TooDeep;
      }
      if child == target {
        return Cycle;
      }
      if child in depthByGroup && depthByGroup[child] >= depth {
        return Accepted;
      }
      depthByGroup := depthByGroup[child := depth];
      var edges := Edges(graph, child);
      for i := 0 to |edges|
        invariant FirstFit(graph, target, edges, i, depth + 1)
        invariant Extends(graph, target, old(depthByGroup)[child := depth], depthByGroup)
      {
        StillRecorded(graph, target, old(depthByGroup), pending, child, depth, depthByGroup);
        ghost var before := depthByGroup;
        v := Walk(edges[i], depth + 1, pending + {child});
        if v != Accepted {
          RejectedThroughChild(graph, target, child, edges[i], depth);
          return;
        }
        ExtendsTwice(graph, target, old(depthByGroup)[child := depth], before, depthByGroup);
      }
      FitsFromChildren(graph, target, child, depth);
      ExtendsWithOwn(graph, target, old(depthByGroup), child, depth, depthByGroup);
      return Accepted;
    }
  }

  /** The requested children of a group: `0` stands for an item that refers to a grant instead. */
  ghost predicate ChildrenFit(g: Graph, groups: set<int>, id: int, requested: seq<int>) {
    forall c :: c in requested && c != 0 ==> c != id && c in groups && Fits(g, id, c, 1)
  }

  /** Accepts exactly when every requested child exists, is another group, and every walk along
      stored references from it meets at most `MAX_DEPTH` groups and never the group being written. */
  method ValidateChildRefs(g: Graph, groups: set<int>, id: int, requested: seq<int>) returns (v: Verdict)
    ensures v == Accepted <==> ChildrenFit(g, groups, id, requested)
    ensures v == SelfReference ==> id in requested && id != 0
    ensures v == ChildNotFound ==> exists c :: c in requested && c != 0 && c !in groups
    ensures v == TooDeep ==> exists c :: c in requested && c != 0 && Overflows(g, c, 1)
    ensures v == Cycle ==> exists c :: c in requested && c != 0 && Reaches(g, c, id)
  {
    for i := 0 to |requested|
      invariant forall k :: 0 <= k < i && requested[k] != 0 ==> requested[k] != id && requested[k] in groups
    {
      if requested[i] == 0 {
        continue;
      }
      assert requested[i] in requested;
      if requested[i] == id {
        return SelfReference;
      }
      if requested[i] !in groups {
        return ChildNotFound;
      }
    }
    var validator := new Validator(g, id);
    for i := 0 to |requested|
      invariant fresh(validator) && validator.graph == g && validator.target == id
      invariant Recorded(g, id, validator.depthByGroup, {}, 1)
      invariant forall k :: 0 <= k < i && requested[k] != 0 ==> Fits(g, id, requested[k], 1)
    {
      if requested[i] != 0 {
        v := validator.Walk(requested[i], 1, {});
        if v != Accepted {
          assert !Fits(g, id, requested[i], 1);
          return;
        }
      }
    }
    return Accepted;
  }

  // ---------- What accepted writes keep ----------

  ghost predicate Acyclic(g: Graph) {
    forall p :: IsWalk(g, p) && |p| > 1 ==> p[0] != p[|p| - 1]
  }

  /** A walk in the new graph that leaves the written group and does not come back to it before its
      last entry runs, behind its first entry, in the old graph. */
  lemma TailInOldGraph(g: Graph, id: int, children: seq<int>, p: seq<int>)
    requires IsWalk(g[id := children], p) && |p| > 1 && p[0] == id
    requires forall i :: 0 < i < |p| - 1 ==> p[i] != id
    ensures p[1] in children && IsWalk(g, p[1..])
  {
    var h := g[id := children];
    assert p[0 + 1] in Edges(h, p[0]);
    var q := p[1..];
    forall i | 0 <= i < |q| - 1 ensures q[i + 1] in Edges(g, q[i]) {
      assert q[i] == p[i + 1] && q[i + 1] == p[i + 1 + 1];
      assert p[i + 1 + 1] in Edges(h, p[i + 1]);
    }
  }

  /** No walk in the new graph returns to the written group. */
  lemma NoReturn(g: Graph, id: int, children: seq<int>, p: seq<int>, k: nat)
    requires forall c :: c in children ==> Fits(g, id, c, 1)
    requires IsWalk(g[id := children], p) && p[0] == id
    requires 0 < k < |p|
    ensures p[k] != id
    decreases k
  {
    if p[k] == id {
      forall i | 0 < i < k ensures p[i] != id {
        NoReturn(g, id, children, p, i);
      }
      SubWalk(g[id := children], p, 0, k + 1);
      var q := p[..k + 1];
      assert q == p[0..k + 1] && forall i :: 0 < i < |q| - 1 ==> q[i] != id;
      TailInOldGraph(g, id, children, q);
    }
  }

  /** A closed walk can be turned so that it starts at any of its groups. */
  lemma TurnCycle(g: Graph, p: seq<int>, k: nat) returns (q: seq<int>)
    requires IsWalk(g, p) && |p| > 1 && p[0] == p[|p| - 1] && k < |p| - 1
    ensures IsWalk(g, q) && |q| > 1 && q[0] == p[k] && q[|q| - 1] == p[k]
  {
    SubWalk(g, p, k, |p|);
    SubWalk(g, p, 0, k + 1);
    var tail, head := p[k..|p|], p[0..k + 1];
    JoinWalks(g, tail, head);
    q := tail + head[1..];
    if k == 0 {
      assert q == tail;
    } else {
      assert q[|q| - 1] == head[1..][k - 1] == p[k];
    }
  }

  /** Writing a group whose children fit closes no cycle, anywhere in the graph. */
  lemma WriteKeepsAcyclic(g: Graph, id: int, children: seq<int>)
    requires Acyclic(g)
    requires forall c :: c in children ==> Fits(g, id, c, 1)
    ensures Acyclic(g[id := children])
  {
    var h := g[id := children];
    forall p | IsWalk(h, p) && |p| > 1 ensures p[0] != p[|p| - 1] {
      if p[0] == p[|p| - 1] {
        if k :| 0 <= k < |p| - 1 && p[k] == id {
          var q := TurnCycle(h, p, k);
          NoReturn(g, id, children, q, |q| - 1);
        } else {
          SameEdgesSameWalk(h, g, p);
        }
      }
    }
  }

  lemma SameEdgesSameWalk(h: Graph, g: Graph, p: seq<int>)
    requires IsWalk(h, p)
    requires forall i :: 0 <= i < |p| - 1 ==> Edges(h, p[i]) == Edges(g, p[i])
    ensures IsWalk(g, p)
  {
  }

  /** At the moment it is written, the group starts no chain of more than `MAX_DEPTH` groups below it. */
  lemma DepthHoldsWhenWritten(g: Graph, id: int, children: seq<int>, p: seq<int>)
    requires forall c :: c in children ==> Fits(g, id, c, 1)
    requires IsWalk(g[id := children], p) && p[0] == id
    ensures |p| <= 1 + MAX_DEPTH && id !in p[1..]
  {
    forall k | 0 < k < |p| ensures p[k] != id {
      NoReturn(g, id, children, p, k);
    }
    if |p| > 1 {
      TailInOldGraph(g, id, children, p);
      assert Fits(g, id, p[1], 1) && p[1..][0] == p[1];
    }
  }

  // ---------- The bound above the written group ----------

  /** No chain of child groups below `x` is longer than the bound. */
  ghost predicate DepthHolds(g: Graph, x: int) {
    forall p :: IsWalk(g, p) && p[0] == x ==> |p| <= 1 + MAX_DEPTH
  }

  /** Every way down from `x` to the written group, followed by every way on from one of its new
      children, stays within the bound. Both are walks of the graph before the write. */
  ghost predicate JoinsHold(g: Graph, id: int, children: seq<int>, x: int) {
    forall p, q :: IsWalk(g, p) && p[0] == x && p[|p| - 1] == id && IsWalk(g, q) && q[0] in children ==>
      |p| + |q| <= 1 + MAX_DEPTH
  }

  /** A walk to the written group, and on from a new child of it, is a walk after the write. */
  lemma JoinedThroughWritten(g: Graph, id: int, children: seq<int>, p: seq<int>, q: seq<int>)
    requires Acyclic(g) && forall c :: c in children ==> Fits(g, id, c, 1)
    requires IsWalk(g, p) && p[|p| - 1] == id && IsWalk(g, q) && q[0] in children
    ensures IsWalk(g[id := children], p + q)
  {
    var h := g[id := children];
    OnlyAtTheEnd(g, p);
    SameEdgesSameWalk(g, h, p);
    assert Fits(g, id, q[0], 1);
    SameEdgesSameWalk(g, h, q);
    PrependWalk(h, id, q);
    JoinWalks(h, p, [id] + q);
    assert ([id] + q)[1..] == q;
  }

  /** Without a cycle a walk meets its last group only once. */
  lemma OnlyAtTheEnd(g: Graph, p: seq<int>)
    requires Acyclic(g) && IsWalk(g, p)
    ensures forall i :: 0 <= i < |p| - 1 ==> p[i] != p[|p| - 1]
  {
    forall i | 0 <= i < |p| - 1 ensures p[i] != p[|p| - 1] {
      SubWalk(g, p, i, |p|);
    }
  }

  /** Behind the written group a walk after the write goes on as one before it. */
  lemma BehindWritten(g: Graph, id: int, children: seq<int>, r: seq<int>, k: nat)
    requires forall c :: c in children ==> Fits(g, id, c, 1)
    requires IsWalk(g[id := children], r) && k < |r| - 1 && r[k] == id
    ensures r[k + 1] in children && IsWalk(g, r[k + 1..])
  {
    SubWalk(g[id := children], r, k, |r|);
    var tail := r[k..|r|];
    forall i | 0 < i < |tail| - 1 ensures tail[i] != id {
      NoReturn(g, id, children, tail, i);
    }
    TailInOldGraph(g, id, children, tail);
    assert tail[1..] == r[k + 1..];
  }

  /** Up to the written group it is one before it. */
  lemma UpToWritten(g: Graph, id: int, children: seq<int>, r: seq<int>, k: nat)
    requires IsWalk(g[id := children], r) && k < |r| && forall i :: 0 <= i < k ==> r[i] != id
    ensures IsWalk(g, r[..k + 1])
  {
    SubWalk(g[id := children], r, 0, k + 1);
    assert r[0..k + 1] == r[..k + 1];
    SameEdgesSameWalk(g[id := children], g, r[..k + 1]);
  }

  /** A walk after the write that passes the written group is such a join; any other is a walk before it. */
  lemma SplitAtWritten(g: Graph, id: int, children: seq<int>, r: seq<int>) returns (k: nat)
    requires forall c :: c in children ==> Fits(g, id, c, 1)
    requires IsWalk(g[id := children], r)
    ensures k < |r| && IsWalk(g, r[..k + 1])
    ensures k < |r| - 1 ==> r[k] == id && r[k + 1] in children && IsWalk(g, r[k + 1..])
  {
    k := 0;
    while k < |r| - 1 && r[k] != id
      invariant k < |r| && forall i :: 0 <= i < k ==> r[i] != id
    {
      k := k + 1;
    }
    UpToWritten(g, id, children, r, k);
    if k < |r| - 1 {
      BehindWritten(g, id, children, r, k);
    }
  }

  /** An accepted write leaves the bound in force at a group where it held, exactly when every way from
      there to the written group leaves room for what is put below it. Nothing checks that. */
  lemma DepthHoldsExactly(g: Graph, id: int, children: seq<int>, x: int)
    requires Acyclic(g) && DepthHolds(g, x)
    requires forall c :: c in children ==> Fits(g, id, c, 1)
    ensures DepthHolds(g[id := children], x) <==> JoinsHold(g, id, children, x)
  {
    var h := g[id := children];
    if DepthHolds(h, x) {
      forall p, q | IsWalk(g, p) && p[0] == x && p[|p| - 1] == id && IsWalk(g, q) && q[0] in children
        ensures |p| + |q| <= 1 + MAX_DEPTH
      {
        JoinedThroughWritten(g, id, children, p, q);
        assert (p + q)[0] == x;
      }
    }
    if JoinsHold(g, id, children, x) {
      forall r | IsWalk(h, r) && r[0] == x ensures |r| <= 1 + MAX_DEPTH {
        var k := SplitAtWritten(g, id, children, r);
        var p := r[..k + 1];
        assert p[0] == x && p[|p| - 1] == r[k];
        if k < |r| - 1 {
          assert r[k + 1..][0] in children;
        } else {
          assert p == r;
        }
      }
    }
  }

  /** The bound on all groups. */
  ghost predicate Bounded(g: Graph) { forall x :: DepthHolds(g, x) }

  ghost predicate AllJoinsHold(g: Graph, id: int, children: seq<int>) { forall x :: JoinsHold(g, id, children, x) }

  /** The bound survives an accepted write everywhere exactly when it does above the written group. */
  lemma BoundedExactly(g: Graph, id: int, children: seq<int>)
    requires Acyclic(g) && Bounded(g)
    requires forall c :: c in children ==> Fits(g, id, c, 1)
    ensures Bounded(g[id := children]) <==> AllJoinsHold(g, id, children)
  {
    var h := g[id := children];
    forall x ensures DepthHolds(h, x) <==> JoinsHold(g, id, children, x) {
      assert DepthHolds(g, x);
      DepthHoldsExactly(g, id, children, x);
    }
  }

  lemma LastStep(g: Graph, p: seq<int>)
    requires IsWalk(g, p) && |p| > 1
    ensures p[|p| - 1] in Edges(g, p[|p| - 2])
  {
    assert p[|p| - 2 + 1] in Edges(g, p[|p| - 2]);
  }

  /** A group that no other refers to can be written without harm. */
  lemma UnreferredJoinsHold(g: Graph, id: int, children: seq<int>, x: int)
    requires forall y :: id !in Edges(g, y)
    requires forall c :: c in children ==> Fits(g, id, c, 1)
    ensures JoinsHold(g, id, children, x)
  {
    forall p, q | IsWalk(g, p) && p[0] == x && p[|p| - 1] == id && IsWalk(g, q) && q[0] in children
      ensures |p| + |q| <= 1 + MAX_DEPTH
    {
      assert Fits(g, id, q[0], 1);
      if |p| > 1 {
        LastStep(g, p);
      }
    }
  }

  /** A write of `children` to group `id` that passes the check, and a walk that is then too deep. */
  ghost predicate DeepAfterWrite(g: Graph, id: int, children: seq<int>, p: seq<int>) {
    && Acyclic(g)
    && (forall c :: c in children ==> c != id && Fits(g, id, c, 1))
    && IsWalk(g[id := children], p) && p[0] != id && |p| > 1 + MAX_DEPTH
  }

  /** Group 1 refers to group 2, and groups 3 to 10 form a chain of their own. */
  function TwoChains(): Graph {
    map[1 := [2], 3 := [4], 4 := [5], 5 := [6], 6 := [7], 7 := [8], 8 := [9], 9 := [10]]
  }

  lemma WalkInTwoChains(p: seq<int>)
    requires IsWalk(TwoChains(), p)
    ensures forall i :: 0 <= i < |p| ==> p[i] == p[0] + i
    ensures |p| > 1 ==> p[0] != p[|p| - 1]
    ensures p[0] == 3 ==> |p| <= MAX_DEPTH && 2 !in p
  {
    WalkCounts(TwoChains(), p, |p| - 1);
    if |p| > 1 {
      assert p[|p| - 2 + 1] in Edges(TwoChains(), p[|p| - 2]);
    }
  }

  lemma TwoChainsFit()
    ensures Acyclic(TwoChains()) && Fits(TwoChains(), 2, 3, 1)
  {
    forall p | IsWalk(TwoChains(), p) ensures |p| > 1 ==> p[0] != p[|p| - 1] { WalkInTwoChains(p); }
    forall p | IsWalk(TwoChains(), p) && p[0] == 3 ensures |p| <= MAX_DEPTH && 2 !in p { WalkInTwoChains(p); }
  }

  function OneToTen(): seq<int> { seq(10, i => i + 1) }

  lemma OneToTenIsWalk()
    ensures IsWalk(TwoChains()[2 := [3]], OneToTen())
  {
    var p := OneToTen();
    forall i | 0 <= i < |p| - 1 ensures p[i + 1] in Edges(TwoChains()[2 := [3]], p[i]) {
      assert p[i] == i + 1;
    }
  }

  /** The bound is not kept for the groups above the written one: giving group 2 the chain 3..10
      is accepted although group 1 above it then starts a chain of ten groups. */
  lemma DepthCanFailAbove()
    ensures exists g: Graph, id: int, children: seq<int>, p: seq<int> :: DeepAfterWrite(g, id, children, p)
  {
    TwoChainsFit();
    OneToTenIsWalk();
    assert DeepAfterWrite(TwoChains(), 2, [3], OneToTen());
  }

  lemma {:induction false} WalkCounts(g: Graph, p: seq<int>, n: nat)
    requires IsWalk(g, p) && n < |p|
    requires forall x :: x in g ==> g[x] == [x + 1]
    ensures forall i :: 0 <= i <= n ==> p[i] == p[0] + i
  {
    if n > 0 {
      WalkCounts(g, p, n - 1);
      assert p[n - 1 + 1] in Edges(g, p[n - 1]);
    }
  }
}
