/** The tables behind groups and channels, what the database itself enforces on them, and what the
    operations have to keep on top of that. */
module Database {
  import opened Reconcile
  import GroupNesting

  /** `active` is the item a manual group sends to, 0 for none. */
  datatype Group = Group(name: string, active: int)

  /** An item refers to a grant or to a child group; 0 stands for NULL. */
  datatype ItemRef = ItemRef(group: int, grant: int, child: int)

  datatype Place = Place(priority: int, tier: string)

  /** Keys and models are unique by name within their channel. */
  datatype Named = Named(channel: int, name: string)

  datatype KeyColumns = KeyColumns(secret: string, enabled: bool, proxyNode: int, operatorDisabled: bool, stats: int)

  datatype GrantRef = GrantRef(model: int, key: int)

  type Items = map<int, Row<ItemRef, Place>>

  /** Row sets by primary key; the counters are the next ids, which are never given out twice. */
  datatype Tables = Tables(
    groups: map<int, Group>,
    items: Items,
    channels: map<int, string>,
    keys: map<int, Row<Named, KeyColumns>>,
    models: map<int, Row<Named, int>>,
    grants: map<int, Row<GrantRef, bv8>>,
    nextGroup: int, nextItem: int, nextChannel: int, nextKey: int, nextModel: int, nextGrant: int)

  const EMPTY := Tables(map[], map[], map[], map[], map[], map[], 1, 1, 1, 1, 1, 1)

  // ---------- The child-group graph ----------

  /** The children of a group in the order its rows are read. */
  function ChildrenOf(items: Items, group: int, next: int): seq<int>
    decreases next
  {
    if next <= 0 then []
    else
      var id, init := next - 1, ChildrenOf(items, group, next - 1);
      if id in items && items[id].ref.group == group && items[id].ref.child != 0
      then init + [items[id].ref.child]
      else init
  }

  function GraphOf(items: Items, next: int): GroupNesting.Graph {
    map group | group in (set id | id in items :: items[id].ref.group) :: ChildrenOf(items, group, next)
  }

  predicate IsEdge(items: Items, group: int, child: int, id: int) {
    id in items && items[id].ref.group == group && items[id].ref.child == child && child != 0
  }

  ghost predicate HasEdge(items: Items, group: int, child: int) { exists id :: IsEdge(items, group, child, id) }

  lemma {:induction false} ChildrenExactly(items: Items, group: int, next: int, child: int)
    ensures child in ChildrenOf(items, group, next) <==> exists id :: 0 <= id < next && IsEdge(items, group, child, id)
    decreases next
  {
    if next > 0 {
      ChildrenExactly(items, group, next - 1, child);
      assert IsEdge(items, group, child, next - 1) ==> child in ChildrenOf(items, group, next);
      if child in ChildrenOf(items, group, next) && child !in ChildrenOf(items, group, next - 1) {
        assert IsEdge(items, group, child, next - 1);
      }
    }
  }

  lemma EdgesExactly(items: Items, next: int, group: int, child: int)
    requires Below(items, next)
    ensures child in GroupNesting.Edges(GraphOf(items, next), group) <==> HasEdge(items, group, child)
  {
    ChildrenExactly(items, group, next, child);
  }

  /** Dropping references closes no cycle and lengthens no chain. */
  lemma FewerEdgesFewerWalks(g: GroupNesting.Graph, h: GroupNesting.Graph)
    requires forall x, c :: c in GroupNesting.Edges(h, x) ==> c in GroupNesting.Edges(g, x)
    ensures forall p :: GroupNesting.IsWalk(h, p) ==> GroupNesting.IsWalk(g, p)
    ensures GroupNesting.Acyclic(g) ==> GroupNesting.Acyclic(h)
  {
    forall p | GroupNesting.IsWalk(h, p) ensures GroupNesting.IsWalk(g, p) {
      forall i | 0 <= i < |p| - 1 ensures p[i + 1] in GroupNesting.Edges(g, p[i]) {
        var x, c := p[i], p[i + 1];
        assert c in GroupNesting.Edges(h, x);
      }
    }
  }

  // ---------- What holds between operations ----------

  /** An item belongs to a group and refers to a grant, which exists, or to what was a group once. */
  predicate ItemSound(t: Tables, id: int) {
    id in t.items ==>
      var r := t.items[id].ref;
      && r.group in t.groups
      && (r.grant == 0 <==> r.child != 0)
      && (r.grant != 0 ==> r.grant in t.grants)
      && (r.child != 0 ==> 0 < r.child < t.nextGroup)
  }

  /** No foreign key sees to child groups: that the referenced one exists is up to the operations. */
  predicate ChildSound(t: Tables, id: int) {
    id in t.items && t.items[id].ref.child != 0 ==> t.items[id].ref.child in t.groups
  }

  ghost predicate ChildrenExist(t: Tables) { forall id :: ChildSound(t, id) }

  predicate ActiveSound(t: Tables, group: int) {
    group in t.groups ==>
      var active := t.groups[group].active;
      active == 0 || (active in t.items && t.items[active].ref.group == group)
  }

  /** A grant joins a model and a key of one channel. */
  predicate GrantSound(t: Tables, id: int) {
    id in t.grants ==>
      var r := t.grants[id].ref;
      r.model in t.models && r.key in t.keys && t.models[r.model].ref.channel == t.keys[r.key].ref.channel
  }

  ghost predicate UniqueNames(groups: map<int, Group>) {
    forall i, j :: i in groups && j in groups && groups[i].name == groups[j].name ==> i == j
  }

  ghost predicate UniqueChannels(channels: map<int, string>) {
    forall i, j :: i in channels && j in channels && channels[i] == channels[j] ==> i == j
  }

  /** Keys and indexes. */
  ghost predicate Keyed(t: Tables) {
    && 0 < t.nextGroup && 0 < t.nextItem && 0 < t.nextChannel && 0 < t.nextKey && 0 < t.nextModel && 0 < t.nextGrant
    && (forall id :: id in t.groups ==> 0 < id < t.nextGroup)
    && (forall id :: id in t.channels ==> 0 < id < t.nextChannel)
    && UniqueNames(t.groups) && UniqueChannels(t.channels)
    && Unique(t.items) && Below(t.items, t.nextItem)
    && Unique(t.keys) && Below(t.keys, t.nextKey)
    && Unique(t.models) && Below(t.models, t.nextModel)
    && Unique(t.grants) && Below(t.grants, t.nextGrant)
    && (forall id :: id in t.keys ==> t.keys[id].ref.channel in t.channels)
    && (forall id :: id in t.models ==> t.models[id].ref.channel in t.channels)
    && (forall id :: GrantSound(t, id))
  }

  ghost predicate AcyclicGroups(t: Tables) { GroupNesting.Acyclic(GraphOf(t.items, t.nextItem)) }

  ghost predicate Intact(t: Tables) {
    && Keyed(t)
    && (forall id :: ItemSound(t, id))
    && (forall group :: ActiveSound(t, group))
    && AcyclicGroups(t)
  }

  lemma FirstStep(g: GroupNesting.Graph, p: seq<int>)
    requires GroupNesting.IsWalk(g, p) && |p| > 1
    ensures p[1] in GroupNesting.Edges(g, p[0])
  {
    assert p[0 + 1] in GroupNesting.Edges(g, p[0]);
  }

  lemma EmptyIsIntact()
    ensures Intact(EMPTY)
  {
    var g := GraphOf(EMPTY.items, 1);
    assert forall x :: GroupNesting.Edges(g, x) == [];
    forall p | GroupNesting.IsWalk(g, p) ensures |p| == 1 {
      if |p| > 1 {
        FirstStep(g, p);
      }
    }
  }

  /** Fewer items leave fewer references between groups. */
  lemma FewerItemsAcyclic(t: Tables, items: Items)
    requires Below(t.items, t.nextItem) && AcyclicGroups(t)
    requires items.Keys <= t.items.Keys && forall id :: id in items ==> items[id] == t.items[id]
    ensures Below(items, t.nextItem) && AcyclicGroups(t.(items := items))
  {
    var g, h := GraphOf(t.items, t.nextItem), GraphOf(items, t.nextItem);
    forall x, c | c in GroupNesting.Edges(h, x) ensures c in GroupNesting.Edges(g, x) {
      EdgesExactly(items, t.nextItem, x, c);
      EdgesExactly(t.items, t.nextItem, x, c);
      var id :| IsEdge(items, x, c, id);
      assert IsEdge(t.items, x, c, id);
    }
    FewerEdgesFewerWalks(g, h);
  }

  /** No chain of child groups is longer than the bound. */
  ghost predicate DepthBounded(t: Tables) { GroupNesting.Bounded(GraphOf(t.items, t.nextItem)) }

  /** A reference to a child group was there before. */
  predicate ReferenceKept(t: Tables, u: Tables, id: int) {
    id in u.items && u.items[id].ref.child != 0 ==> id in t.items && u.items[id].ref == t.items[id].ref
  }

  lemma FewerReferencesBounded(t: Tables, u: Tables)
    requires Below(t.items, t.nextItem) && Below(u.items, u.nextItem) && forall id :: ReferenceKept(t, u, id)
    ensures DepthBounded(t) ==> DepthBounded(u)
  {
    var g, h := GraphOf(t.items, t.nextItem), GraphOf(u.items, u.nextItem);
    forall x, c | c in GroupNesting.Edges(h, x) ensures c in GroupNesting.Edges(g, x) {
      EdgesExactly(u.items, u.nextItem, x, c);
      EdgesExactly(t.items, t.nextItem, x, c);
      var id :| IsEdge(u.items, x, c, id);
      assert ReferenceKept(t, u, id) && IsEdge(t.items, x, c, id);
    }
    FewerEdgesFewerWalks(g, h);
    FewerWalksBounded(g, h);
  }

  lemma FewerWalksBounded(g: GroupNesting.Graph, h: GroupNesting.Graph)
    requires forall p :: GroupNesting.IsWalk(h, p) ==> GroupNesting.IsWalk(g, p)
    ensures GroupNesting.Bounded(g) ==> GroupNesting.Bounded(h)
  {
    if GroupNesting.Bounded(g) {
      forall x ensures GroupNesting.DepthHolds(h, x) {
        assert GroupNesting.DepthHolds(g, x);
      }
    }
  }

  // ---------- Deleting rows ----------

  /** The groups after the items in `gone` are no group's active item any more. */
  function Released(groups: map<int, Group>, gone: set<int>): map<int, Group> {
    map g | g in groups :: if groups[g].active in gone then groups[g].(active := 0) else groups[g]
  }

  /** Takes out items, and with them every choice of one of them. */
  function WithoutItems(t: Tables, gone: set<int>): Tables {
    t.(groups := Released(t.groups, gone), items := t.items - gone)
  }

  lemma WithoutItemsIntact(t: Tables, gone: set<int>)
    requires Intact(t)
    ensures Intact(WithoutItems(t, gone))
  {
    var u := WithoutItems(t, gone);
    FewerItemsAcyclic(t, u.items);
    assert GraphOf(u.items, u.nextItem) == GraphOf(t.(items := u.items).items, t.nextItem);
    forall id ensures ItemSound(u, id) {
      assert ItemSound(t, id);
    }
    forall g ensures ActiveSound(u, g) {
      assert ActiveSound(t, g);
    }
    forall id ensures GrantSound(u, id) {
      assert GrantSound(t, id);
    }
  }

  /** Deleting grants takes the items that refer to them along; their choice is cleared first. */
  function ItemsOfGrants(t: Tables, gone: set<int>): set<int> {
    set id | id in t.items && t.items[id].ref.grant in gone
  }

  function WithoutGrants(t: Tables, gone: set<int>): Tables {
    WithoutItems(t, ItemsOfGrants(t, gone)).(grants := t.grants - gone)
  }

  lemma WithoutGrantsIntact(t: Tables, gone: set<int>)
    requires Intact(t) && 0 !in gone
    ensures Intact(WithoutGrants(t, gone))
  {
    var u, v := WithoutItems(t, ItemsOfGrants(t, gone)), WithoutGrants(t, gone);
    WithoutItemsIntact(t, ItemsOfGrants(t, gone));
    forall id ensures ItemSound(v, id) {
      assert ItemSound(u, id);
    }
    forall g ensures ActiveSound(v, g) {
      assert ActiveSound(u, g);
    }
    forall id ensures GrantSound(v, id) {
      assert GrantSound(u, id);
    }
  }
}
