/** Which grant items a flattened group holds, in terms of reachable groups alone: those of the
    groups that a chain of at most `MAX_DEPTH` references leads to without coming back to the top. */
module GroupReach {
  import opened Common
  import opened GroupNesting
  import opened GroupFlatten

  /** A chain of child groups, each referred to by an item of the one before. */
  predicate IsRoute(cache: Cache, items: seq<Item>, route: seq<int>)
    decreases |route|
  {
    route == [] ||
    (&& route[0] != 0 && route[0] in cache
     && (exists i :: 0 <= i < |items| && items[i].child == route[0])
     && IsRoute(cache, cache[route[0]].items, route[1..]))
  }

  /** The items of the group a route ends at. */
  function ItemsAt(cache: Cache, items: seq<Item>, route: seq<int>): seq<Item>
    requires IsRoute(cache, items, route)
    decreases |route|
  {
    if route == [] then items else ItemsAt(cache, cache[route[0]].items, route[1..])
  }

  ghost predicate Disjoint(path: seq<int>, route: seq<int>) {
    forall i :: 0 <= i < |route| ==> route[i] !in path
  }

  predicate HasGrantItem(items: seq<Item>, id: int) {
    exists i :: 0 <= i < |items| && items[i].child == 0 && items[i].id == id
  }

  /** The group at the end of the route has a grant item with this id. */
  predicate EndsAt(cache: Cache, items: seq<Item>, route: seq<int>, id: int) {
    IsRoute(cache, items, route) && HasGrantItem(ItemsAt(cache, items, route), id)
  }

  // ---------- Trails and routes ----------

  lemma {:induction false} TrailHasRoute(cache: Cache, items: seq<Item>, depth: nat, path: seq<int>, tier: string,
      t: seq<nat>) returns (route: seq<int>)
    requires IsTrail(cache, items, depth, path, t)
    ensures |route| == |t| - 1 && depth + |route| <= MAX_DEPTH && NoRepeat(route) && Disjoint(path, route)
    ensures EndsAt(cache, items, route, Leaf(cache, items, depth, path, tier, t).id)
    decreases |t|
  {
    var item := items[t[0]];
    if item.child == 0 {
      route := [];
    } else {
      var rest := TrailHasRoute(cache, cache[item.child].items, depth + 1, path + [item.child], Inherit(item, tier),
        t[1..]);
      route := [item.child] + rest;
      assert route[1..] == rest;
    }
  }

  lemma {:induction false} RouteHasTrail(cache: Cache, items: seq<Item>, depth: nat, path: seq<int>, tier: string,
      route: seq<int>, id: int) returns (t: seq<nat>)
    requires EndsAt(cache, items, route, id)
    requires depth + |route| <= MAX_DEPTH && NoRepeat(route) && Disjoint(path, route)
    ensures IsTrail(cache, items, depth, path, t) && Leaf(cache, items, depth, path, tier, t).id == id
    decreases |route|
  {
    if route == [] {
      var i :| 0 <= i < |items| && items[i].child == 0 && items[i].id == id;
      t := [i];
    } else {
      var i :| 0 <= i < |items| && items[i].child == route[0];
      assert Disjoint(path + [route[0]], route[1..]);
      var rest := RouteHasTrail(cache, cache[route[0]].items, depth + 1, path + [route[0]], Inherit(items[i], tier),
        route[1..], id);
      t := [i] + rest;
      assert t[1..] == rest;
    }
  }

  // ---------- Shortening a route ----------

  lemma {:induction false} RouteConcat(cache: Cache, items: seq<Item>, a: seq<int>, b: seq<int>)
    ensures IsRoute(cache, items, a + b) <==> IsRoute(cache, items, a) && IsRoute(cache, ItemsAt(cache, items, a), b)
    ensures IsRoute(cache, items, a + b) ==> ItemsAt(cache, items, a + b) == ItemsAt(cache, ItemsAt(cache, items, a), b)
    decreases |a|
  {
    if a == [] {
      assert a + b == b;
    } else {
      assert (a + b)[1..] == a[1..] + b;
      if a[0] in cache {
        RouteConcat(cache, cache[a[0]].items, a[1..], b);
      }
    }
  }

  /** Behind its first group a route runs from that group's cached items. */
  lemma EndOfRoute(cache: Cache, items: seq<Item>, a: seq<int>)
    requires IsRoute(cache, items, a) && a != []
    ensures a[|a| - 1] in cache && ItemsAt(cache, items, a) == cache[a[|a| - 1]].items
  {
    var init, last := a[..|a| - 1], [a[|a| - 1]];
    assert a == init + last && last[1..] == [];
    RouteConcat(cache, items, init, last);
    assert IsRoute(cache, ItemsAt(cache, items, init), last);
  }

  /** A route cut behind its position `i` goes on from the cached items of the group there. */
  lemma CutAt(cache: Cache, items: seq<Item>, route: seq<int>, i: nat)
    requires IsRoute(cache, items, route) && i < |route|
    ensures IsRoute(cache, items, route[..i + 1]) && route[i] in cache
    ensures ItemsAt(cache, items, route[..i + 1]) == cache[route[i]].items
    ensures IsRoute(cache, cache[route[i]].items, route[i + 1..])
    ensures ItemsAt(cache, items, route) == ItemsAt(cache, cache[route[i]].items, route[i + 1..])
  {
    assert route == route[..i + 1] + route[i + 1..];
    RouteConcat(cache, items, route[..i + 1], route[i + 1..]);
    EndOfRoute(cache, items, route[..i + 1]);
  }

  /** Cutting out a loop leaves a route to the same place. */
  lemma CutLoop(cache: Cache, items: seq<Item>, route: seq<int>, i: nat, j: nat)
    requires IsRoute(cache, items, route) && i < j < |route| && route[i] == route[j]
    ensures IsRoute(cache, items, route[..i + 1] + route[j + 1..])
    ensures ItemsAt(cache, items, route[..i + 1] + route[j + 1..]) == ItemsAt(cache, items, route)
  {
    CutAt(cache, items, route, i);
    CutAt(cache, items, route, j);
    RouteConcat(cache, items, route[..i + 1], route[j + 1..]);
  }

  lemma {:induction false} Shorten(cache: Cache, items: seq<Item>, top: int, route: seq<int>, id: int)
      returns (short: seq<int>)
    requires EndsAt(cache, items, route, id) && Disjoint([top], route)
    ensures EndsAt(cache, items, short, id) && NoRepeat(short) && |short| <= |route| && Disjoint([top], short)
    decreases |route|
  {
    if i, j :| 0 <= i < j < |route| && route[i] == route[j] {
      CutLoop(cache, items, route, i, j);
      short := Shorten(cache, items, top, route[..i + 1] + route[j + 1..], id);
    } else {
      short := route;
    }
  }

  /** The item belongs to a group that some chain of at most `MAX_DEPTH` references reaches without
      coming back to the top group; the chain may visit a group more than once. */
  ghost predicate Reachable(cache: Cache, group: Group, id: int) {
    exists route: seq<int> :: |route| <= MAX_DEPTH && Disjoint([group.id], route)
      && EndsAt(cache, group.items, route, id)
  }

  /** The flattened group holds the ids of exactly the reachable grant items, in any cache, with
      cycles or without. */
  lemma FlatHoldsExactlyReachable(cache: Cache, group: Group, id: int)
    ensures id in Ids(Flat(cache, group)) <==> Reachable(cache, group, id)
  {
    var ts := FlatIsFirstTrails(cache, group);
    if id in Ids(Flat(cache, group)) {
      var k := IdAt(Flat(cache, group), id);
      assert FirstTrail(cache, group, ts[k], Flat(cache, group)[k]);
      var route := TrailHasRoute(cache, group.items, 0, [group.id], "", ts[k]);
    }
    if Reachable(cache, group, id) {
      var route: seq<int> :| |route| <= MAX_DEPTH && Disjoint([group.id], route)
        && EndsAt(cache, group.items, route, id);
      var short := Shorten(cache, group.items, group.id, route, id);
      var t := RouteHasTrail(cache, group.items, 0, [group.id], "", short, id);
      assert TopTrail(cache, group, t) && TopLeaf(cache, group, t).id == id;
    }
  }

  lemma {:induction false} IdAt(items: seq<Item>, id: int) returns (k: nat)
    requires id in Ids(items)
    ensures k < |items| && items[k].id == id
  {
    if items[0].id == id {
      k := 0;
    } else {
      k := IdAt(items[1..], id);
      k := k + 1;
    }
  }
}
