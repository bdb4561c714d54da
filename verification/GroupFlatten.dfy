/** Flattening a group with nested groups into the list of its grant items.

    The walk drops a child group that is already on the current path, stops below `MAX_DEPTH`,
    keeps the first item of each id and hands the nearest declared tier down. `Leaves` is the same
    walk without any memory. The second half of the module says what the result is without a walk:
    it is described by the trails (positions, from the top group down to a grant item) of the cached
    groups, which may well contain cycles. */
module GroupFlatten {
  import opened Common
  import opened GroupNesting

  /** `child` is 0 for an item that refers to a channel grant; an empty `tier` is undeclared. */
  datatype Item = Item(id: int, grant: int, child: int, tier: string)

  datatype Group = Group(id: int, items: seq<Item>)

  type Cache = map<int, Group>

  function Inherit(item: Item, tier: string): string { if item.tier != "" then item.tier else tier }

  predicate Enters(cache: Cache, item: Item, path: seq<int>) {
    item.child != 0 && item.child in cache && item.child !in path
  }

  /** Every grant item the walk meets, repetitions included, with the tier it ends up with. */
  function Leaves(cache: Cache, items: seq<Item>, depth: nat, path: seq<int>, tier: string): seq<Item>
    decreases MAX_DEPTH + 1 - depth, |items|
  {
    if depth > MAX_DEPTH || items == [] then []
    else ItemLeaves(cache, items[0], depth, path, tier) + Leaves(cache, items[1..], depth, path, tier)
  }

  function ItemLeaves(cache: Cache, item: Item, depth: nat, path: seq<int>, tier: string): seq<Item>
    requires depth <= MAX_DEPTH
    decreases MAX_DEPTH + 1 - depth, 0
  {
    if item.child == 0 then [item.(tier := Inherit(item, tier))]
    else if Enters(cache, item, path) then
      Leaves(cache, cache[item.child].items, depth + 1, path + [item.child], Inherit(item, tier))
    else []
  }

  function Ids(items: seq<Item>): set<int> {
    if items == [] then {} else {items[0].id} + Ids(items[1..])
  }

  /** The first item of each id that is not in `seen`. */
  function Distinct(items: seq<Item>, seen: set<int>): seq<Item> {
    if items == [] then []
    else if items[0].id in seen then Distinct(items[1..], seen)
    else [items[0]] + Distinct(items[1..], seen + {items[0].id})
  }

  lemma {:induction false} IdsMember(items: seq<Item>, n: nat)
    requires n < |items|
    ensures items[n].id in Ids(items)
  {
    if n > 0 { IdsMember(items[1..], n - 1); }
  }

  lemma {:induction false} IdsConcat(a: seq<Item>, b: seq<Item>)
    ensures Ids(a + b) == Ids(a) + Ids(b)
  {
    if a == [] {
      assert a + b == b;
    } else {
      assert (a + b)[1..] == a[1..] + b;
      IdsConcat(a[1..], b);
    }
  }

  lemma IdsOfOne(x: Item, seen: set<int>)
    ensures Ids([x]) == {x.id} && Distinct([x], seen) == if x.id in seen then [] else [x]
  {
    assert [x][1..] == [];
  }

  lemma {:induction false} DistinctConcat(a: seq<Item>, b: seq<Item>, seen: set<int>)
    ensures Distinct(a + b, seen) == Distinct(a, seen) + Distinct(b, seen + Ids(a))
  {
    if a == [] {
      assert a + b == b && seen + Ids(a) == seen;
    } else {
      assert (a + b)[1..] == a[1..] + b;
      var now := if a[0].id in seen then seen else seen + {a[0].id};
      DistinctConcat(a[1..], b, now);
      assert now + Ids(a[1..]) == seen + Ids(a);
    }
  }

  lemma LeavesSnoc(cache: Cache, items: seq<Item>, item: Item, depth: nat, path: seq<int>, tier: string)
    requires depth <= MAX_DEPTH
    ensures Leaves(cache, items + [item], depth, path, tier) ==
            Leaves(cache, items, depth, path, tier) + ItemLeaves(cache, item, depth, path, tier)
  {
    if items == [] {
      assert [item][1..] == [] && [] + [item] == [item];
    } else {
      assert (items + [item])[1..] == items[1..] + [item];
      LeavesSnoc(cache, items[1..], item, depth, path, tier);
    }
  }

  /** What one more item adds to the leaves, to their first occurrences and to their ids. */
  lemma AbsorbNext(cache: Cache, items: seq<Item>, i: nat, depth: nat, path: seq<int>, tier: string, seen: set<int>)
    returns (all: seq<Item>)
    requires depth <= MAX_DEPTH && i < |items|
    ensures all == Leaves(cache, items[..i + 1], depth, path, tier)
    ensures
      var leaves, more := Leaves(cache, items[..i], depth, path, tier), ItemLeaves(cache, items[i], depth, path, tier);
      && Distinct(all, seen) == Distinct(leaves, seen) + Distinct(more, seen + Ids(leaves))
      && Ids(all) == Ids(leaves) + Ids(more)
  {
    var leaves, more := Leaves(cache, items[..i], depth, path, tier), ItemLeaves(cache, items[i], depth, path, tier);
    assert items[..i + 1] == items[..i] + [items[i]];
    LeavesSnoc(cache, items[..i], items[i], depth, path, tier);
    DistinctConcat(leaves, more, seen);
    IdsConcat(leaves, more);
    all := leaves + more;
  }

  // ---------- The walk ----------

  class Flattener {
    const cache: Cache
    var seen: set<int>
    var out: seq<Item>

    constructor (cache: Cache)
      ensures this.cache == cache && seen == {} && out == []
    {
      this.cache := cache;
      seen, out := {}, [];
    }

    /** Appends a grant item unless its id has been seen. */
    method AddLeaf(item: Item)
      modifies this
      ensures out == old(out) + Distinct([item], old(seen)) && seen == old(seen) + Ids([item])
    {
      IdsOfOne(item, seen);
      if item.id !in seen {
        seen := seen + {item.id};
        out := out + [item];
      }
    }

    /** Appends the leaves of `items` whose ids are new. */
    method FlattenInto(items: seq<Item>, depth: nat, path: seq<int>, tier: string)
      requires depth <= MAX_DEPTH + 1
      modifies this
      ensures out == old(out) + Distinct(Leaves(cache, items, depth, path, tier), old(seen))
      ensures seen == old(seen) + Ids(Leaves(cache, items, depth, path, tier))
      decreases MAX_DEPTH + 1 - depth, 1
    {
      if depth > MAX_DEPTH {
        return;
      }
      ghost var leaves := [];
      for i := 0 to |items|
        invariant leaves == Leaves(cache, items[..i], depth, path, tier)
        invariant out == old(out) + Distinct(leaves, old(seen)) && seen == old(seen) + Ids(leaves)
      {
        leaves := AbsorbNext(cache, items, i, depth, path, tier, old(seen));
        FlattenItem(items[i], depth, path, tier);
      }
      assert items[..|items|] == items;
    }

    method FlattenItem(item: Item, depth: nat, path: seq<int>, tier: string)
      requires depth <= MAX_DEPTH
      modifies this
      ensures out == old(out) + Distinct(ItemLeaves(cache, item, depth, path, tier), old(seen))
      ensures seen == old(seen) + Ids(ItemLeaves(cache, item, depth, path, tier))
      decreases MAX_DEPTH + 1 - depth, 0
    {
      var inherited := if item.tier != "" then item.tier else tier;
      if item.child == 0 {
        AddLeaf(item.(tier := inherited));
        return;
      }
      if item.child !in cache {
        return;
      }
      if item.child in path {
        return;
      }
      FlattenInto(cache[item.child].items, depth + 1, path + [item.child], inherited);
    }
  }

  /** What flattening a group is: the first item of each id among its leaves. */
  function Flat(cache: Cache, group: Group): seq<Item> {
    Distinct(Leaves(cache, group.items, 0, [group.id], ""), {})
  }

  /** The counts cut `out`, from its end to its start, into the contributions of the top items:
      what the item leads to, less the ids that the items before it have contributed. */
  ghost predicate Segments(cache: Cache, group: Group, out: seq<Item>, counts: seq<nat>)
    requires |counts| <= |group.items|
    decreases |counts|
  {
    if counts == [] then out == []
    else
      var k := |counts| - 1;
      var cut := |out| - counts[k];
      && cut >= 0
      && out[cut..] == Distinct(ItemLeaves(cache, group.items[k], 0, [group.id], ""),
                                Ids(Leaves(cache, group.items[..k], 0, [group.id], "")))
      && Segments(cache, group, out[..cut], counts[..k])
  }

  lemma OneMoreSegment(cache: Cache, group: Group, was: seq<Item>, counts: seq<nat>, more: seq<Item>)
    requires |counts| < |group.items| && Segments(cache, group, was, counts)
    requires more == Distinct(ItemLeaves(cache, group.items[|counts|], 0, [group.id], ""),
                              Ids(Leaves(cache, group.items[..|counts|], 0, [group.id], "")))
    ensures Segments(cache, group, was + more, counts + [|more|])
  {
    assert (was + more)[..|was|] == was && (was + more)[|was|..] == more;
    assert (counts + [|more|])[..|counts|] == counts;
  }

  function Sum(counts: seq<nat>): nat {
    if counts == [] then 0 else Sum(counts[..|counts| - 1]) + counts[|counts| - 1]
  }

  lemma {:induction false} SegmentsCoverAll(cache: Cache, group: Group, out: seq<Item>, counts: seq<nat>)
    requires |counts| <= |group.items| && Segments(cache, group, out, counts)
    ensures Sum(counts) == |out|
    decreases |counts|
  {
    if counts != [] {
      SegmentsCoverAll(cache, group, out[..|out| - counts[|counts| - 1]], counts[..|counts| - 1]);
    }
  }

  lemma LeavesOfOne(cache: Cache, item: Item, path: seq<int>)
    ensures Leaves(cache, [item], 0, path, "") == ItemLeaves(cache, item, 0, path, "")
  {
    LeavesSnoc(cache, [], item, 0, path, "");
    assert [] + [item] == [item];
  }

  /** The first `i` top items are flattened. */
  ghost predicate FlatTo(cache: Cache, group: Group, i: nat, out: seq<Item>, seen: set<int>, counts: seq<nat>) {
    && |counts| == i <= |group.items| && Segments(cache, group, out, counts)
    && out == Distinct(Leaves(cache, group.items[..i], 0, [group.id], ""), {})
    && seen == Ids(Leaves(cache, group.items[..i], 0, [group.id], ""))
  }

  lemma FlatStep(cache: Cache, group: Group, i: nat, out: seq<Item>, seen: set<int>, counts: seq<nat>, more: seq<Item>)
    requires i < |group.items| && FlatTo(cache, group, i, out, seen, counts)
    requires more == Distinct(Leaves(cache, [group.items[i]], 0, [group.id], ""), seen)
    ensures FlatTo(cache, group, i + 1, out + more, seen + Ids(Leaves(cache, [group.items[i]], 0, [group.id], "")),
      counts + [|more|])
  {
    LeavesOfOne(cache, group.items[i], [group.id]);
    var _ := AbsorbNext(cache, group.items, i, 0, [group.id], "", {});
    assert {} + seen == seen;
    OneMoreSegment(cache, group, out, counts, more);
  }

  /** Flattening item by item: the same list as flattening at once, and the counts cut it into the
      contributions of the top items, in order. */
  method FlattenWithTopCounts(cache: Cache, group: Group) returns (out: seq<Item>, counts: seq<nat>)
    ensures out == Flat(cache, group)
    ensures |counts| == |group.items| && Sum(counts) == |out| && Segments(cache, group, out, counts)
  {
    var f := new Flattener(cache);
    counts := [];
    for i := 0 to |group.items|
      invariant fresh(f) && f.cache == cache && FlatTo(cache, group, i, f.out, f.seen, counts)
    {
      ghost var out0, seen0, more :=
        f.out, f.seen, Distinct(Leaves(cache, [group.items[i]], 0, [group.id], ""), f.seen);
      var length := |f.out|;
      f.FlattenInto([group.items[i]], 0, [group.id], "");
      FlatStep(cache, group, i, out0, seen0, counts, more);
      counts := counts + [|f.out| - length];
    }
    OneMore(group.items, |group.items|);
    out := f.out;
    SegmentsCoverAll(cache, group, out, counts);
  }

  // ---------- Trails ----------

  /** Positions from a list of items down to a grant item: every step but the last enters a cached
      child group that is not on the path yet. */
  predicate IsTrail(cache: Cache, items: seq<Item>, depth: nat, path: seq<int>, t: seq<nat>)
    decreases |t|
  {
    && depth <= MAX_DEPTH
    && t != [] && t[0] < |items|
    && var item := items[t[0]];
       if item.child == 0 then |t| == 1
       else Enters(cache, item, path) && IsTrail(cache, cache[item.child].items, depth + 1, path + [item.child], t[1..])
  }

  /** The grant item at the end of a trail, with the nearest tier declared on the way. */
  function Leaf(cache: Cache, items: seq<Item>, depth: nat, path: seq<int>, tier: string, t: seq<nat>): Item
    requires IsTrail(cache, items, depth, path, t)
    decreases |t|
  {
    var item := items[t[0]];
    if item.child == 0 then item.(tier := Inherit(item, tier))
    else Leaf(cache, cache[item.child].items, depth + 1, path + [item.child], Inherit(item, tier), t[1..])
  }

  /** Dictionary order. */
  predicate Earlier(t: seq<nat>, u: seq<nat>) {
    u != [] && (t == [] || t[0] < u[0] || (t[0] == u[0] && Earlier(t[1..], u[1..])))
  }

  function Under(k: nat, ts: seq<seq<nat>>): seq<seq<nat>> { seq(|ts|, i requires 0 <= i < |ts| => [k] + ts[i]) }

  /** All trails whose first position is at least `from`. */
  function Trails(cache: Cache, items: seq<Item>, from: nat, depth: nat, path: seq<int>): seq<seq<nat>>
    requires from <= |items|
    decreases MAX_DEPTH + 1 - depth, |items| - from
  {
    if depth > MAX_DEPTH || from == |items| then []
    else ItemTrails(cache, items, from, depth, path) + Trails(cache, items, from + 1, depth, path)
  }

  /** All trails whose first position is `k`. */
  function ItemTrails(cache: Cache, items: seq<Item>, k: nat, depth: nat, path: seq<int>): seq<seq<nat>>
    requires k < |items| && depth <= MAX_DEPTH
    decreases MAX_DEPTH + 1 - depth, 0
  {
    if items[k].child == 0 then [[k]]
    else if Enters(cache, items[k], path) then
      Under(k, Trails(cache, cache[items[k].child].items, 0, depth + 1, path + [items[k].child]))
    else []
  }

  /** The leaves are the ends of the trails, one for one, and the trails start at `from` or later. */
  ghost predicate Follows(cache: Cache, items: seq<Item>, from: nat, depth: nat, path: seq<int>, tier: string,
      ls: seq<Item>, ts: seq<seq<nat>>)
  {
    && |ls| == |ts|
    && forall n :: 0 <= n < |ts| ==>
         && IsTrail(cache, items, depth, path, ts[n]) && ts[n][0] >= from
         && ls[n] == Leaf(cache, items, depth, path, tier, ts[n])
  }

  lemma FollowsUnder(cache: Cache, items: seq<Item>, from: nat, depth: nat, path: seq<int>, tier: string, ls: seq<Item>,
      ts: seq<seq<nat>>)
    requires depth <= MAX_DEPTH && from < |items| && Enters(cache, items[from], path)
    requires var c := items[from].child;
      Follows(cache, cache[c].items, 0, depth + 1, path + [c], Inherit(items[from], tier), ls, ts)
    ensures Follows(cache, items, from, depth, path, tier, ls, Under(from, ts))
  {
    forall n | 0 <= n < |ts|
      ensures IsTrail(cache, items, depth, path, [from] + ts[n])
      ensures ls[n] == Leaf(cache, items, depth, path, tier, [from] + ts[n])
    {
      assert ([from] + ts[n])[1..] == ts[n];
    }
  }

  lemma FollowsConcat(cache: Cache, items: seq<Item>, from: nat, depth: nat, path: seq<int>, tier: string,
      ls: seq<Item>, ts: seq<seq<nat>>, more: seq<Item>, others: seq<seq<nat>>)
    requires Follows(cache, items, from, depth, path, tier, ls, ts)
    requires Follows(cache, items, from + 1, depth, path, tier, more, others)
    ensures Follows(cache, items, from, depth, path, tier, ls + more, ts + others)
  {
    var all := ts + others;
    forall n | 0 <= n < |all|
      ensures IsTrail(cache, items, depth, path, all[n]) && all[n][0] >= from
      ensures (ls + more)[n] == Leaf(cache, items, depth, path, tier, all[n])
    {
      if n >= |ts| {
        assert all[n] == others[n - |ts|];
      }
    }
  }

  lemma {:induction false} LeavesFollowTrails(cache: Cache, items: seq<Item>, from: nat, depth: nat, path: seq<int>,
      tier: string)
    requires from <= |items|
    ensures Follows(cache, items, from, depth, path, tier, Leaves(cache, items[from..], depth, path, tier),
      Trails(cache, items, from, depth, path))
    decreases MAX_DEPTH + 1 - depth, |items| - from
  {
    if depth <= MAX_DEPTH && from < |items| {
      var item := items[from];
      assert items[from..][1..] == items[from + 1..];
      LeavesFollowTrails(cache, items, from + 1, depth, path, tier);
      if Enters(cache, item, path) {
        var sub := cache[item.child].items;
        assert sub[0..] == sub;
        LeavesFollowTrails(cache, sub, 0, depth + 1, path + [item.child], Inherit(item, tier));
        FollowsUnder(cache, items, from, depth, path, tier,
          Leaves(cache, sub, depth + 1, path + [item.child], Inherit(item, tier)),
                     Trails(cache, sub, 0, depth + 1, path + [item.child]));
      }
      FollowsConcat(cache, items, from, depth, path, tier,
                    ItemLeaves(cache, item, depth, path, tier), ItemTrails(cache, items, from, depth, path),
                    Leaves(cache, items[from + 1..], depth, path, tier), Trails(cache, items, from + 1, depth, path));
    }
  }

  lemma {:induction false} EveryTrailListed(cache: Cache, items: seq<Item>, from: nat, depth: nat, path: seq<int>,
      t: seq<nat>) returns (n: nat)
    requires from <= |items| && IsTrail(cache, items, depth, path, t) && from <= t[0]
    ensures n < |Trails(cache, items, from, depth, path)| && Trails(cache, items, from, depth, path)[n] == t
    decreases MAX_DEPTH + 1 - depth, |items| - from
  {
    if t[0] > from {
      n := EveryTrailListed(cache, items, from + 1, depth, path, t);
      n := |ItemTrails(cache, items, from, depth, path)| + n;
    } else if items[from].child == 0 {
      assert t == [from] && ItemTrails(cache, items, from, depth, path) == [[from]];
      n := 0;
    } else {
      var child := items[from].child;
      n := EveryTrailListed(cache, cache[child].items, 0, depth + 1, path + [child], t[1..]);
      assert ItemTrails(cache, items, from, depth, path)[n] == [from] + t[1..] == t;
    }
  }

  /** Below one position the order is that of the trails one level down. */
  lemma UnderKeepsOrder(k: nat, ts: seq<seq<nat>>, m: nat, n: nat)
    requires m < n < |ts| && Earlier(ts[m], ts[n])
    ensures Earlier(Under(k, ts)[m], Under(k, ts)[n])
  {
    assert ([k] + ts[m])[1..] == ts[m] && ([k] + ts[n])[1..] == ts[n];
  }

  /** The trails are listed in dictionary order. */
  lemma {:induction false} TrailsInOrder(cache: Cache, items: seq<Item>, from: nat, depth: nat, path: seq<int>, m: nat,
      n: nat)
    requires from <= |items| && m < n < |Trails(cache, items, from, depth, path)|
    ensures Earlier(Trails(cache, items, from, depth, path)[m], Trails(cache, items, from, depth, path)[n])
    decreases MAX_DEPTH + 1 - depth, |items| - from
  {
    var here, later := ItemTrails(cache, items, from, depth, path), Trails(cache, items, from + 1, depth, path);
    if |here| <= m {
      TrailsInOrder(cache, items, from + 1, depth, path, m - |here|, n - |here|);
    } else if |here| <= n {
      LeavesFollowTrails(cache, items, from + 1, depth, path, "");
      assert later[n - |here|][0] > from && here[m][0] == from;
    } else {
      var child := items[from].child;
      var inner := Trails(cache, cache[child].items, 0, depth + 1, path + [child]);
      TrailsInOrder(cache, cache[child].items, 0, depth + 1, path + [child], m, n);
      UnderKeepsOrder(from, inner, m, n);
    }
  }

  // ---------- What the result is ----------

  /** The positions, among the first `n` items, of those whose id did not occur before. */
  function Origins(items: seq<Item>, n: nat): seq<nat>
    requires n <= |items|
  {
    if n == 0 then []
    else Origins(items, n - 1) + if items[n - 1].id in Ids(items[..n - 1]) then [] else [n - 1]
  }

  lemma {:induction false} DistinctAreOrigins(items: seq<Item>, n: nat)
    requires n <= |items|
    ensures |Distinct(items[..n], {})| == |Origins(items, n)|
    ensures forall k :: 0 <= k < |Origins(items, n)| ==>
      Origins(items, n)[k] < n && Distinct(items[..n], {})[k] == items[Origins(items, n)[k]]
    ensures Ids(Distinct(items[..n], {})) == Ids(items[..n])
  {
    if n > 0 {
      DistinctAreOrigins(items, n - 1);
      var x := items[n - 1];
      assert items[..n] == items[..n - 1] + [x];
      DistinctConcat(items[..n - 1], [x], {});
      IdsOfOne(x, Ids(items[..n - 1]));
      assert {} + Ids(items[..n - 1]) == Ids(items[..n - 1]);
      IdsConcat(items[..n - 1], [x]);
      IdsConcat(Distinct(items[..n - 1], {}), [x]);
      if x.id in Ids(items[..n - 1]) {
        assert Distinct(items[..n], {}) == Distinct(items[..n - 1], {});
      }
    }
  }

  /** No earlier item has the id of item `n`. */
  ghost predicate FirstOccurrence(items: seq<Item>, n: nat) {
    n < |items| && forall m: nat :: m < n ==> items[m].id != items[n].id
  }

  /** Origins ascend and are first occurrences. */
  lemma {:induction false} OriginsAscend(items: seq<Item>, n: nat)
    requires n <= |items|
    ensures forall k :: 0 <= k < |Origins(items, n)| ==>
      Origins(items, n)[k] < n && FirstOccurrence(items, Origins(items, n)[k])
    ensures forall j, k :: 0 <= j < k < |Origins(items, n)| ==> Origins(items, n)[j] < Origins(items, n)[k]
  {
    if n > 0 {
      OriginsAscend(items, n - 1);
      if !FirstOccurrence(items, n - 1) {
        var m: nat :| m < n - 1 && items[m].id == items[n - 1].id;
        IdsMember(items[..n - 1], m);
      }
    }
  }

  predicate TopTrail(cache: Cache, group: Group, t: seq<nat>) { IsTrail(cache, group.items, 0, [group.id], t) }

  function TopLeaf(cache: Cache, group: Group, t: seq<nat>): Item
    requires TopTrail(cache, group, t)
  {
    Leaf(cache, group.items, 0, [group.id], "", t)
  }

  /** `t` ends at this item, and every other trail to an item with its id comes later. */
  ghost predicate FirstTrail(cache: Cache, group: Group, t: seq<nat>, leaf: Item) {
    && TopTrail(cache, group, t) && TopLeaf(cache, group, t) == leaf
    && forall u :: TopTrail(cache, group, u) && u != t && TopLeaf(cache, group, u).id == leaf.id ==> Earlier(t, u)
  }

  lemma OriginIsFirstTrail(cache: Cache, group: Group, n: nat)
    requires var leaves := Leaves(cache, group.items, 0, [group.id], "");
      FirstOccurrence(leaves, n)
    ensures var trails := Trails(cache, group.items, 0, 0, [group.id]);
      n < |trails| && FirstTrail(cache, group, trails[n], Leaves(cache, group.items, 0, [group.id], "")[n])
  {
    var leaves, trails := Leaves(cache, group.items, 0, [group.id], ""), Trails(cache, group.items, 0, 0, [group.id]);
    assert group.items[0..] == group.items;
    LeavesFollowTrails(cache, group.items, 0, 0, [group.id], "");
    forall u | TopTrail(cache, group, u) && u != trails[n] && TopLeaf(cache, group, u).id == leaves[n].id
      ensures Earlier(trails[n], u)
    {
      var m := EveryTrailListed(cache, group.items, 0, 0, [group.id], u);
      TrailsInOrder(cache, group.items, 0, 0, [group.id], n, m);
    }
  }

  // ---------- The items on a trail ----------

  /** `s` are the items at the positions of `t`, each in the cached child group of the one before. */
  ghost predicate ItemsOn(cache: Cache, items: seq<Item>, t: seq<nat>, s: seq<Item>) {
    && |s| == |t| > 0 && t[0] < |items| && s[0] == items[t[0]]
    && forall k :: 0 <= k < |t| - 1 ==>
         s[k].child in cache && t[k + 1] < |cache[s[k].child].items| && s[k + 1] == cache[s[k].child].items[t[k + 1]]
  }

  /** The last item that declares a tier decides; `outside` is the tier when none does. */
  ghost predicate NearestTier(s: seq<Item>, outside: string, tier: string) {
    && (forall k :: 0 <= k < |s| && s[k].tier != "" && (forall j :: k < j < |s| ==> s[j].tier == "") ==>
          tier == s[k].tier)
    && ((forall k :: 0 <= k < |s| ==> s[k].tier == "") ==> tier == outside)
  }

  /** The last of the items, with the nearest tier, is what the trail ends at. */
  ghost predicate EndsWith(s: seq<Item>, outside: string, leaf: Item) {
    && s != [] && s[|s| - 1].child == 0 && NearestTier(s, outside, leaf.tier)
    && leaf.id == s[|s| - 1].id && leaf.grant == s[|s| - 1].grant && leaf.child == 0
  }

  lemma NearerTier(item: Item, s: seq<Item>, outside: string, within: string, tier: string)
    requires NearestTier(s, within, tier) && within == if item.tier != "" then item.tier else outside
    ensures NearestTier([item] + s, outside, tier)
  {
    var all := [item] + s;
    forall k | 0 <= k < |all| && all[k].tier != "" && forall j :: k < j < |all| ==> all[j].tier == ""
      ensures tier == all[k].tier
    {
      forall j | 0 <= j < |s| && k <= j ensures s[j].tier == "" {
        assert all[j + 1] == s[j];
      }
      assert k > 0 ==> s[k - 1] == all[k];
    }
    if forall k :: 0 <= k < |all| ==> all[k].tier == "" {
      forall j | 0 <= j < |s| ensures s[j].tier == "" {
        assert all[j + 1] == s[j];
      }
      assert all[0] == item;
    }
  }

  lemma ItemsOnFurther(cache: Cache, items: seq<Item>, t: seq<nat>, rest: seq<Item>)
    requires t != [] && t[0] < |items| && items[t[0]].child in cache
    requires ItemsOn(cache, cache[items[t[0]].child].items, t[1..], rest)
    ensures ItemsOn(cache, items, t, [items[t[0]]] + rest)
  {
    var s := [items[t[0]]] + rest;
    forall k | 0 <= k < |t| - 1
      ensures s[k].child in cache && t[k + 1] < |cache[s[k].child].items|
      ensures s[k + 1] == cache[s[k].child].items[t[k + 1]]
    {
      assert t[k + 1] == t[1..][k] && s[k + 1] == rest[k];
      if k > 0 {
        assert rest[k - 1].child in cache && t[1..][k] < |cache[rest[k - 1].child].items|;
      }
    }
  }

  /** What stands at the end of a trail, told by the items on it. */
  lemma {:induction false} LeafByItems(cache: Cache, items: seq<Item>, depth: nat, path: seq<int>, tier: string,
      t: seq<nat>) returns (s: seq<Item>)
    requires IsTrail(cache, items, depth, path, t)
    ensures ItemsOn(cache, items, t, s) && EndsWith(s, tier, Leaf(cache, items, depth, path, tier, t))
    decreases |t|
  {
    var item := items[t[0]];
    if item.child == 0 {
      s := [item];
    } else {
      var within := Inherit(item, tier);
      var rest := LeafByItems(cache, cache[item.child].items, depth + 1, path + [item.child], within, t[1..]);
      s := [item] + rest;
      ItemsOnFurther(cache, items, t, rest);
      NearerTier(item, rest, tier, within, Leaf(cache, items, depth, path, tier, t).tier);
    }
  }

  /** The end of a trail is the last item on it, with the tier of the last item that declares one. */
  ghost predicate ByItems(cache: Cache, group: Group, t: seq<nat>, leaf: Item) {
    exists s :: ItemsOn(cache, group.items, t, s) && EndsWith(s, "", leaf)
  }

  /** The whole result, without a walk: each item is the end of the first trail to its id, with that
      trail's nearest tier; the items are in the order of those trails, so no id occurs twice; and
      the id at the end of every trail is there. */
  lemma FlatIsFirstTrails(cache: Cache, group: Group) returns (ts: seq<seq<nat>>)
    ensures |ts| == |Flat(cache, group)|
    ensures forall k :: 0 <= k < |ts| ==> FirstTrail(cache, group, ts[k], Flat(cache, group)[k])
    ensures forall k :: 0 <= k < |ts| ==> ByItems(cache, group, ts[k], Flat(cache, group)[k])
    ensures forall j, k :: 0 <= j < k < |ts| ==>
      Earlier(ts[j], ts[k]) && Flat(cache, group)[j].id != Flat(cache, group)[k].id
    ensures forall u :: TopTrail(cache, group, u) ==> TopLeaf(cache, group, u).id in Ids(Flat(cache, group))
  {
    var leaves, trails := Leaves(cache, group.items, 0, [group.id], ""), Trails(cache, group.items, 0, 0, [group.id]);
    var o := Origins(leaves, |leaves|);
    assert leaves[..|leaves|] == leaves && group.items[0..] == group.items;
    DistinctAreOrigins(leaves, |leaves|);
    OriginsAscend(leaves, |leaves|);
    LeavesFollowTrails(cache, group.items, 0, 0, [group.id], "");
    ts := seq(|o|, k requires 0 <= k < |o| => trails[o[k]]);
    forall k | 0 <= k < |ts| ensures FirstTrail(cache, group, ts[k], Flat(cache, group)[k]) {
      OriginIsFirstTrail(cache, group, o[k]);
    }
    forall k | 0 <= k < |ts| ensures ByItems(cache, group, ts[k], Flat(cache, group)[k]) {
      var s := LeafByItems(cache, group.items, 0, [group.id], "", ts[k]);
      assert TopLeaf(cache, group, ts[k]) == Flat(cache, group)[k];
    }
    forall j, k | 0 <= j < k < |ts|
      ensures Earlier(ts[j], ts[k]) && Flat(cache, group)[j].id != Flat(cache, group)[k].id
    {
      TrailsInOrder(cache, group.items, 0, 0, [group.id], o[j], o[k]);
      assert FirstOccurrence(leaves, o[k]);
    }
    forall u | TopTrail(cache, group, u) ensures TopLeaf(cache, group, u).id in Ids(Flat(cache, group)) {
      var n := EveryTrailListed(cache, group.items, 0, 0, [group.id], u);
      IdsMember(leaves, n);
    }
  }
}
