/** Creating, updating and deleting groups. Every operation is one transaction, and every transaction
    that goes through leaves the tables intact: see `Database.Intact`. */
module GroupStore {
  import opened Common
  import opened Reconcile
  import opened Database
  import GroupNesting
  import Text

  /** A submitted item; its place in the list is its priority. */
  datatype ItemInput = ItemInput(grant: int, child: int, tier: string)

  predicate RefOk(item: ItemInput) { item.grant == 0 <==> item.child != 0 }

  function Children(inputs: seq<ItemInput>): (children: seq<int>)
    ensures |children| == |inputs| && forall i :: 0 <= i < |inputs| ==> children[i] == inputs[i].child
  {
    seq(|inputs|, i requires 0 <= i < |inputs| => inputs[i].child)
  }

  function Wanted(group: int, inputs: seq<ItemInput>): (rows: seq<Row<ItemRef, Place>>)
    ensures |rows| == |inputs|
    ensures forall i :: 0 <= i < |inputs| ==>
      rows[i] == Row(ItemRef(group, inputs[i].grant, inputs[i].child), Place(i + 1, inputs[i].tier))
  {
    seq(|inputs|, i requires 0 <= i < |inputs| =>
      Row(ItemRef(group, inputs[i].grant, inputs[i].child), Place(i + 1, inputs[i].tier)))
  }

  function OfGroup(group: int): ItemRef -> bool { (ref: ItemRef) => ref.group == group }

  function Rewritten(): (Place, Place) -> Place { (stored: Place, requested: Place) => requested }

  ghost predicate DistinctTargets(inputs: seq<ItemInput>) {
    forall i, j :: 0 <= i < j < |inputs| ==> inputs[i].grant != inputs[j].grant || inputs[i].child != inputs[j].child
  }

  /** What a list of items has to meet to be written to a group: each item refers to one thing, the
      children pass the nesting check, the grants exist and nothing is there twice. */
  ghost predicate Submittable(t: Tables, group: int, inputs: seq<ItemInput>) {
    Checked(t, group, inputs) && DistinctTargets(inputs)
  }

  ghost predicate Checked(t: Tables, group: int, inputs: seq<ItemInput>) {
    && (forall i :: 0 <= i < |inputs| ==> RefOk(inputs[i]))
    && GroupNesting.ChildrenFit(GraphOf(t.items, t.nextItem), t.groups.Keys, group, Children(inputs))
    && (forall i :: 0 <= i < |inputs| && inputs[i].grant != 0 ==> inputs[i].grant in t.grants)
  }

  /** An item that can be submitted: a grant that exists, or another group that exists, from which no chain of
      stored references is longer than eight groups or leads to the group written. */
  ghost predicate ItemOk(t: Tables, group: int, item: ItemInput) {
    && (item.grant != 0) != (item.child != 0)
    && (item.grant != 0 ==> item.grant in t.grants)
    && (item.child != 0 ==>
          && item.child in t.groups && item.child != group
          && forall p :: GroupNesting.IsWalk(GraphOf(t.items, t.nextItem), p) && p[0] == item.child ==>
               |p| <= 8 && group !in p)
  }

  /** A list can be submitted exactly when each item can and no target is there twice. */
  lemma SubmittableInFull(t: Tables, group: int, inputs: seq<ItemInput>)
    ensures Submittable(t, group, inputs) <==>
      (forall i :: 0 <= i < |inputs| ==> ItemOk(t, group, inputs[i])) && DistinctTargets(inputs)
  {
    var g := GraphOf(t.items, t.nextItem);
    if Submittable(t, group, inputs) {
      forall i | 0 <= i < |inputs| ensures ItemOk(t, group, inputs[i]) {
        assert RefOk(inputs[i]) && Children(inputs)[i] == inputs[i].child;
      }
    }
    if forall i :: 0 <= i < |inputs| ==> ItemOk(t, group, inputs[i]) {
      forall c | c in Children(inputs) && c != 0
        ensures c != group && c in t.groups.Keys && GroupNesting.Fits(g, group, c, 1)
      {
        var i :| 0 <= i < |inputs| && Children(inputs)[i] == c;
        assert ItemOk(t, group, inputs[i]);
      }
      forall i | 0 <= i < |inputs| ensures RefOk(inputs[i]) && (inputs[i].grant != 0 ==> inputs[i].grant in t.grants) {
        assert ItemOk(t, group, inputs[i]);
      }
    }
  }

  /** The groups after the items of one were replaced: a choice of an item that is gone is cleared. */
  function Settled(t: Tables, items: Items, group: int): map<int, Group>
    requires group in t.groups
  {
    var g := t.groups[group];
    if g.active in t.items && g.active !in items then t.groups[group := g.(active := 0)] else t.groups
  }

  ghost predicate ItemsReplaced(t: Tables, u: Tables, group: int, inputs: seq<ItemInput>)
    requires group in t.groups
  {
    && Reconciled(t.items, u.items, OfGroup(group), Wanted(group, inputs), Rewritten(), t.nextItem, u.nextItem)
    && u == t.(groups := Settled(t, u.items, group), items := u.items, nextItem := u.nextItem)
  }

  lemma DistinctWanted(group: int, inputs: seq<ItemInput>)
    ensures DistinctRefs(Wanted(group, inputs)) <==> DistinctTargets(inputs)
  {
    var rows := Wanted(group, inputs);
    if DistinctRefs(rows) {
      forall i, j | 0 <= i < j < |inputs|
        ensures inputs[i].grant != inputs[j].grant || inputs[i].child != inputs[j].child
      {
        assert rows[i].ref != rows[j].ref;
      }
    }
  }

  /** One item id before and after its group, or another, was written. */
  lemma ItemAfter(t: Tables, u: Tables, group: int, inputs: seq<ItemInput>, id: int)
    requires group in t.groups && DistinctTargets(inputs) && ItemsReplaced(t, u, group, inputs)
    ensures id in u.items && u.items[id].ref.group == group ==> u.items[id] in Wanted(group, inputs)
    ensures id in t.items && id in u.items ==> u.items[id].ref == t.items[id].ref
    ensures (id in t.items && t.items[id].ref.group != group) || (id in u.items && u.items[id].ref.group != group) ==>
      id in t.items && id in u.items && u.items[id] == t.items[id]
  {
    var rows := Wanted(group, inputs);
    DistinctWanted(group, inputs);
    AskedFacts(rows);
    assert IdFits(t.items, u.items, OfGroup(group), rows, Rewritten(), t.nextItem, u.nextItem, id);
    if id in u.items && u.items[id].ref.group == group {
      assert Asked(rows, u.items[id].ref).Some?;
      var i :| 0 <= i < |rows| && rows[i].ref == u.items[id].ref;
      assert u.items[id] == rows[i];
    }
  }

  ghost predicate HasRow(items: Items, row: Row<ItemRef, Place>) { exists id :: id in items && items[id] == row }

  lemma PlacedAt(t: Tables, u: Tables, group: int, inputs: seq<ItemInput>, i: nat)
    requires group in t.groups && DistinctTargets(inputs) && ItemsReplaced(t, u, group, inputs) && i < |inputs|
    ensures HasRow(u.items, Wanted(group, inputs)[i])
  {
    var rows := Wanted(group, inputs);
    assert HasRef(u.items, rows[i].ref);
    var id :| id in u.items && u.items[id].ref == rows[i].ref;
    ItemAfter(t, u, group, inputs, id);
    var j :| 0 <= j < |rows| && rows[j] == u.items[id];
    assert i == j;
  }

  ghost predicate Submitted(group: int, inputs: seq<ItemInput>, ref: ItemRef) {
    exists i :: 0 <= i < |inputs| && Wanted(group, inputs)[i].ref == ref
  }

  /** A row that is submitted item `i`: its target, its place in the list counted from 1, and its tier. */
  predicate RowFor(row: Row<ItemRef, Place>, group: int, inputs: seq<ItemInput>, i: int) {
    && 0 <= i < |inputs|
    && row.ref.group == group && row.ref.grant == inputs[i].grant && row.ref.child == inputs[i].child
    && row.value.priority == i + 1 && row.value.tier == inputs[i].tier
  }

  ghost predicate HasRowFor(items: Items, group: int, inputs: seq<ItemInput>, i: int) {
    exists id :: id in items && RowFor(items[id], group, inputs, i)
  }

  predicate TargetSubmitted(inputs: seq<ItemInput>, ref: ItemRef) {
    exists i :: 0 <= i < |inputs| && inputs[i].grant == ref.grant && inputs[i].child == ref.child
  }

  /** One item before and after: of the group, it is there exactly when its target is submitted, and is then the
      submitted row under the id it had; of any other group, it is as it was; a new one has a new id. */
  ghost predicate ItemSubmitted(t: Tables, u: Tables, group: int, inputs: seq<ItemInput>, id: int) {
    && (id in t.items && t.items[id].ref.group == group ==>
          (id in u.items <==> TargetSubmitted(inputs, t.items[id].ref)))
    && (id in t.items && id in u.items ==> u.items[id].ref == t.items[id].ref)
    && (id in t.items && t.items[id].ref.group != group ==> id in u.items && u.items[id] == t.items[id])
    && (id in u.items && u.items[id].ref.group == group ==> exists i :: RowFor(u.items[id], group, inputs, i))
    && (id in u.items && id !in t.items ==> t.nextItem <= id && u.items[id].ref.group == group)
  }

  ghost predicate ItemsSubmitted(t: Tables, u: Tables, group: int, inputs: seq<ItemInput>) {
    && Unique(u.items)
    && (forall i :: 0 <= i < |inputs| ==> HasRowFor(u.items, group, inputs, i))
    && (forall id :: ItemSubmitted(t, u, group, inputs, id))
  }

  /** The group holds the submitted targets in the submitted order, numbered from 1, each once;
      an item that is submitted again keeps its id, and no other group is touched. */
  lemma SubmittedInOrder(t: Tables, u: Tables, group: int, inputs: seq<ItemInput>)
    requires group in t.groups && DistinctTargets(inputs) && ItemsReplaced(t, u, group, inputs)
    ensures ItemsSubmitted(t, u, group, inputs)
  {
    forall i | 0 <= i < |inputs| ensures HasRowFor(u.items, group, inputs, i) {
      PlacedAt(t, u, group, inputs, i);
      var id :| id in u.items && u.items[id] == Wanted(group, inputs)[i];
      assert RowFor(u.items[id], group, inputs, i);
    }
    forall id ensures ItemSubmitted(t, u, group, inputs, id) {
      ItemSubmittedAt(t, u, group, inputs, id);
    }
  }

  lemma ItemSubmittedAt(t: Tables, u: Tables, group: int, inputs: seq<ItemInput>, id: int)
    requires group in t.groups && DistinctTargets(inputs) && ItemsReplaced(t, u, group, inputs)
    ensures ItemSubmitted(t, u, group, inputs, id)
  {
    var rows := Wanted(group, inputs);
    ItemAfter(t, u, group, inputs, id);
    assert IdFits(t.items, u.items, OfGroup(group), rows, Rewritten(), t.nextItem, u.nextItem, id);
    if id in t.items && t.items[id].ref.group == group {
      KeptExactly(t, u, group, inputs, id);
      TargetExactly(group, inputs, t.items[id].ref);
    }
    if id in u.items && u.items[id].ref.group == group {
      var i :| 0 <= i < |rows| && rows[i] == u.items[id];
      assert RowFor(u.items[id], group, inputs, i);
    }
  }

  lemma TargetExactly(group: int, inputs: seq<ItemInput>, ref: ItemRef)
    requires ref.group == group
    ensures Submitted(group, inputs, ref) <==> TargetSubmitted(inputs, ref)
  {
    if i :| 0 <= i < |inputs| && inputs[i].grant == ref.grant && inputs[i].child == ref.child {
      assert Wanted(group, inputs)[i].ref == ref;
    }
  }

  lemma KeptExactly(t: Tables, u: Tables, group: int, inputs: seq<ItemInput>, id: int)
    requires group in t.groups && ItemsReplaced(t, u, group, inputs)
    requires id in t.items && t.items[id].ref.group == group
    ensures id in u.items <==> Submitted(group, inputs, t.items[id].ref)
  {
    AskedFacts(Wanted(group, inputs));
    assert IdFits(t.items, u.items, OfGroup(group), Wanted(group, inputs), Rewritten(), t.nextItem, u.nextItem, id);
  }

  // ---------- Replacing the items keeps the tables intact ----------

  /** The child groups among the submitted items. */
  function Kids(inputs: seq<ItemInput>): (kids: seq<int>)
    ensures forall c :: c in kids <==> c != 0 && c in Children(inputs)
  {
    if inputs == [] then []
    else
      var init, last := inputs[..|inputs| - 1], inputs[|inputs| - 1];
      assert Children(inputs) == Children(init) + [last.child];
      if last.child == 0 then Kids(init) else Kids(init) + [last.child]
  }

  lemma ReplacedAcyclic(t: Tables, u: Tables, group: int, inputs: seq<ItemInput>)
    requires Intact(t) && group in t.groups && Submittable(t, group, inputs) && ItemsReplaced(t, u, group, inputs)
    ensures AcyclicGroups(u) && GroupNesting.DepthHolds(GraphOf(u.items, u.nextItem), group)
  {
    var g, h, kids := GraphOf(t.items, t.nextItem), GraphOf(u.items, u.nextItem), Kids(inputs);
    var w := g[group := kids];
    GroupNesting.WriteKeepsAcyclic(g, group, kids);
    EdgesAfter(t, u, group, inputs);
    FewerEdgesFewerWalks(w, h);
    forall p | GroupNesting.IsWalk(h, p) && p[0] == group ensures |p| <= 1 + GroupNesting.MAX_DEPTH {
      GroupNesting.DepthHoldsWhenWritten(g, group, kids, p);
    }
  }

  /** The references afterwards are those of the graph with the submitted children written in. */
  lemma EdgesAfter(t: Tables, u: Tables, group: int, inputs: seq<ItemInput>)
    requires Intact(t) && group in t.groups && DistinctTargets(inputs) && ItemsReplaced(t, u, group, inputs)
    ensures forall x, c ::
      (c in GroupNesting.Edges(GraphOf(u.items, u.nextItem), x)
       <==> c in GroupNesting.Edges(GraphOf(t.items, t.nextItem)[group := Kids(inputs)], x))
  {
    var h, w := GraphOf(u.items, u.nextItem), GraphOf(t.items, t.nextItem)[group := Kids(inputs)];
    forall x, c ensures c in GroupNesting.Edges(h, x) <==> c in GroupNesting.Edges(w, x) {
      EdgesExactly(u.items, u.nextItem, x, c);
      if id :| IsEdge(u.items, x, c, id) {
        EdgeAfter(t, u, group, inputs, x, c, id);
      }
      if c in GroupNesting.Edges(w, x) {
        EdgeWritten(t, u, group, inputs, x, c);
      }
    }
  }

  lemma EdgeWritten(t: Tables, u: Tables, group: int, inputs: seq<ItemInput>, x: int, c: int)
    requires Intact(t) && group in t.groups && DistinctTargets(inputs) && ItemsReplaced(t, u, group, inputs)
    requires c in GroupNesting.Edges(GraphOf(t.items, t.nextItem)[group := Kids(inputs)], x)
    ensures HasEdge(u.items, x, c)
  {
    if x == group {
      var i :| 0 <= i < |inputs| && Children(inputs)[i] == c && c != 0;
      PlacedAt(t, u, group, inputs, i);
      var id :| id in u.items && u.items[id] == Wanted(group, inputs)[i];
      assert IsEdge(u.items, x, c, id);
    } else {
      EdgesExactly(t.items, t.nextItem, x, c);
      var id :| IsEdge(t.items, x, c, id);
      ItemAfter(t, u, group, inputs, id);
      assert IsEdge(u.items, x, c, id);
    }
  }

  /** Before the write: every way down to the group leaves room for what is to be put below it. */
  ghost predicate RoomAbove(t: Tables, group: int, inputs: seq<ItemInput>) {
    GroupNesting.AllJoinsHold(GraphOf(t.items, t.nextItem), group, Kids(inputs))
  }

  /** Where the bound held on all groups, it still does exactly when there was room above the written one. */
  lemma ReplacedBoundedExactly(t: Tables, u: Tables, group: int, inputs: seq<ItemInput>)
    requires Intact(t) && group in t.groups && Submittable(t, group, inputs) && ItemsReplaced(t, u, group, inputs)
    requires DepthBounded(t)
    ensures DepthBounded(u) <==> RoomAbove(t, group, inputs)
  {
    var g, h, kids := GraphOf(t.items, t.nextItem), GraphOf(u.items, u.nextItem), Kids(inputs);
    var w := g[group := kids];
    EdgesAfter(t, u, group, inputs);
    FewerEdgesFewerWalks(w, h);
    FewerEdgesFewerWalks(h, w);
    FewerWalksBounded(w, h);
    FewerWalksBounded(h, w);
    GroupNesting.BoundedExactly(g, group, kids);
  }

  /** A new group is referred to by none: there is always room above it. */
  lemma RoomAboveNew(t: Tables, group: int, inputs: seq<ItemInput>)
    requires Keyed(t) && (forall id :: ItemSound(t, id)) && Submittable(t, group, inputs)
    requires forall id :: id in t.items ==> t.items[id].ref.child != group
    ensures RoomAbove(t, group, inputs)
  {
    var g := GraphOf(t.items, t.nextItem);
    forall y ensures group !in GroupNesting.Edges(g, y) {
      EdgesExactly(t.items, t.nextItem, y, group);
    }
    forall x ensures GroupNesting.JoinsHold(g, group, Kids(inputs), x) {
      GroupNesting.UnreferredJoinsHold(g, group, Kids(inputs), x);
    }
  }

  lemma EdgeAfter(t: Tables, u: Tables, group: int, inputs: seq<ItemInput>, x: int, c: int, id: int)
    requires Intact(t) && group in t.groups && DistinctTargets(inputs) && ItemsReplaced(t, u, group, inputs)
    requires IsEdge(u.items, x, c, id)
    ensures c in GroupNesting.Edges(GraphOf(t.items, t.nextItem)[group := Kids(inputs)], x)
  {
    ItemAfter(t, u, group, inputs, id);
    if x == group {
      var i :| 0 <= i < |inputs| && Wanted(group, inputs)[i] == u.items[id];
      assert Children(inputs)[i] == c;
    } else {
      assert IsEdge(t.items, x, c, id);
      EdgesExactly(t.items, t.nextItem, x, c);
    }
  }

  lemma ItemSoundAfter(t: Tables, u: Tables, group: int, inputs: seq<ItemInput>, id: int)
    requires Intact(t) && group in t.groups && Submittable(t, group, inputs) && ItemsReplaced(t, u, group, inputs)
    ensures ItemSound(u, id) && (ChildSound(t, id) ==> ChildSound(u, id))
  {
    assert ItemSound(t, id);
    ItemAfter(t, u, group, inputs, id);
    if id in u.items && u.items[id].ref.group == group {
      var i :| 0 <= i < |inputs| && Wanted(group, inputs)[i] == u.items[id];
      var c := Children(inputs)[i];
      assert RefOk(inputs[i]) && c == u.items[id].ref.child;
      assert c in Children(inputs) && (c != 0 ==> c in t.groups.Keys);
    }
  }

  lemma ReplacedIntact(t: Tables, u: Tables, group: int, inputs: seq<ItemInput>)
    requires Intact(t) && group in t.groups && Submittable(t, group, inputs) && ItemsReplaced(t, u, group, inputs)
    ensures Intact(u) && (ChildrenExist(t) ==> ChildrenExist(u))
  {
    forall id | ChildSound(t, id) ensures ChildSound(u, id) {
      ItemSoundAfter(t, u, group, inputs, id);
    }
    ReplacedAcyclic(t, u, group, inputs);
    forall id ensures ItemSound(u, id) {
      ItemSoundAfter(t, u, group, inputs, id);
    }
    forall g ensures ActiveSound(u, g) {
      assert ActiveSound(t, g);
      if g in t.groups {
        ItemAfter(t, u, group, inputs, t.groups[g].active);
      }
    }
    forall id ensures GrantSound(u, id) {
      assert GrantSound(t, id);
    }
  }

  /** The checks on a submission. The last one is the foreign key on grants: the database refuses a row
      whose grant does not exist. */
  method CheckItems(t: Tables, group: int, inputs: seq<ItemInput>) returns (ok: bool)
    ensures ok <==> Checked(t, group, inputs)
  {
    for i := 0 to |inputs|
      invariant forall k :: 0 <= k < i ==> RefOk(inputs[k])
    {
      if !RefOk(inputs[i]) {
        return false;
      }
    }
    var verdict := GroupNesting.ValidateChildRefs(GraphOf(t.items, t.nextItem), t.groups.Keys, group, Children(inputs));
    if verdict != GroupNesting.Accepted {
      return false;
    }
    for i := 0 to |inputs|
      invariant forall k :: 0 <= k < i && inputs[k].grant != 0 ==> inputs[k].grant in t.grants
    {
      if inputs[i].grant != 0 && inputs[i].grant !in t.grants {
        return false;
      }
    }
    ok := true;
  }

  /** Writes the items of a group, inside the caller's transaction. */
  method SyncGroupItems(t: Tables, group: int, inputs: seq<ItemInput>) returns (ok: bool, u: Tables)
    requires Intact(t) && group in t.groups
    ensures ok <==> Submittable(t, group, inputs)
    ensures ok ==> ItemsReplaced(t, u, group, inputs) && Intact(u) && (ChildrenExist(t) ==> ChildrenExist(u))
  {
    u := t;
    ok := CheckItems(t, group, inputs);
    if !ok {
      return;
    }
    DistinctWanted(group, inputs);
    var items, next;
    ok, items, next := Sync(t.items, OfGroup(group), Wanted(group, inputs), Rewritten(), t.nextItem);
    if ok {
      u := t.(groups := Settled(t, items, group), items := items, nextItem := next);
      ReplacedIntact(t, u, group, inputs);
    }
  }

  // ---------- A new group ----------

  function WithGroup(t: Tables, name: string): Tables {
    t.(groups := t.groups[t.nextGroup := Group(name, 0)], nextGroup := t.nextGroup + 1)
  }

  lemma NewGroupIntact(t: Tables, name: string)
    requires Intact(t) && forall g :: g in t.groups ==> t.groups[g].name != name
    ensures Intact(WithGroup(t, name)) && (ChildrenExist(t) ==> ChildrenExist(WithGroup(t, name)))
  {
    var u := WithGroup(t, name);
    forall id | ChildSound(t, id) ensures ChildSound(u, id) {
    }
    forall id ensures ItemSound(u, id) {
      assert ItemSound(t, id);
    }
    forall g ensures ActiveSound(u, g) {
      assert ActiveSound(t, g);
    }
    forall id ensures GrantSound(u, id) {
      assert GrantSound(t, id);
    }
  }

  /** Every walk from an existing group stays among ids that were given out. */
  lemma {:induction false} WalkStays(t: Tables, p: seq<int>, n: nat)
    requires Intact(t) && GroupNesting.IsWalk(GraphOf(t.items, t.nextItem), p) && p[0] in t.groups && n < |p|
    ensures p[n] < t.nextGroup
  {
    if n > 0 {
      WalkStays(t, p, n - 1);
      var x, c := p[n - 1], p[n - 1 + 1];
      assert c in GroupNesting.Edges(GraphOf(t.items, t.nextItem), x);
      EdgesExactly(t.items, t.nextItem, x, c);
      var id :| IsEdge(t.items, x, c, id);
      assert ItemSound(t, id);
    }
  }

  /** A group that is not there yet is checked under id 0; nothing can lead back to it. */
  lemma CheckedBeforeItExists(t: Tables, inputs: seq<ItemInput>, name: string)
    requires Intact(t) && Submittable(t, 0, inputs)
    ensures Submittable(WithGroup(t, name), t.nextGroup, inputs)
  {
    var g := GraphOf(t.items, t.nextItem);
    forall c | c in Children(inputs) && c != 0 ensures GroupNesting.Fits(g, t.nextGroup, c, 1) {
      assert GroupNesting.Fits(g, 0, c, 1);
      forall p | GroupNesting.IsWalk(g, p) && p[0] == c ensures t.nextGroup !in p {
        forall n | 0 <= n < |p| ensures p[n] != t.nextGroup {
          WalkStays(t, p, n);
        }
      }
    }
  }

  predicate NameFree(groups: map<int, Group>, name: string, self: int) {
    name != "" && forall g :: g in groups && groups[g].name == name ==> g == self
  }

  /** A group update that was accepted; `None` is a field the request does not carry. */
  ghost predicate GroupUpdated(t: Tables, u: Tables, id: int, name: Option<string>, items: Option<seq<ItemInput>>,
      active: Option<int>)
    requires id in t.groups
  {
    && u == t.(groups := u.groups, items := u.items, nextItem := u.nextItem)
    && u.groups.Keys == t.groups.Keys
    && (forall g :: g in t.groups && g != id ==> u.groups[g] == t.groups[g])
    && u.groups[id].name == (if name.Some? then Text.TrimSpace(name.value) else t.groups[id].name)
    && (if items.Some?
        then Reconciled(t.items, u.items, OfGroup(id), Wanted(id, items.value), Rewritten(), t.nextItem, u.nextItem)
        else u.items == t.items && u.nextItem == t.nextItem)
    && u.groups[id].active ==
         if active.Some? then active.value
         else if t.groups[id].active in u.items then t.groups[id].active else 0
  }

  /** An accepted update says of its items what the submission says. */
  lemma UpdatedInOrder(t: Tables, u: Tables, id: int, name: Option<string>, items: Option<seq<ItemInput>>,
      active: Option<int>)
    requires Updatable(t, id, name, items) && GroupUpdated(t, u, id, name, items, active)
    ensures items.Some? ==> ItemsSubmitted(t, u, id, items.value)
  {
    if items.Some? {
      var w := t.(groups := Settled(t, u.items, id), items := u.items, nextItem := u.nextItem);
      SubmittedInOrder(t, w, id, items.value);
      forall i ensures ItemSubmitted(t, u, id, items.value, i) {
        assert ItemSubmitted(t, w, id, items.value, i);
      }
    }
  }

  /** An item of the group that the submission names again, or that is not up for replacement. */
  ghost predicate Stays(t: Tables, id: int, items: Option<seq<ItemInput>>, item: int) {
    && item in t.items && t.items[item].ref.group == id
    && (items.Some? ==> Submitted(id, items.value, t.items[item].ref))
  }

  /** Writing a free name, or an item of the group, to a group keeps the tables intact. */
  lemma WrittenIntact(t: Tables, id: int, g: Group)
    requires Intact(t) && id in t.groups && (g.name == t.groups[id].name || NameFree(t.groups, g.name, id))
    requires g.active == t.groups[id].active || g.active == 0
      || (g.active in t.items && t.items[g.active].ref.group == id)
    ensures Intact(t.(groups := t.groups[id := g]))
    ensures ChildrenExist(t) ==> ChildrenExist(t.(groups := t.groups[id := g]))
  {
    var u := t.(groups := t.groups[id := g]);
    forall i | ChildSound(t, i) ensures ChildSound(u, i) {
    }
    forall i ensures ItemSound(u, i) {
      assert ItemSound(t, i);
    }
    forall i ensures ActiveSound(u, i) {
      assert ActiveSound(t, i);
    }
    forall i ensures GrantSound(u, i) {
      assert GrantSound(t, i);
    }
  }

  method WriteName(t: Tables, id: int, name: Option<string>) returns (ok: bool, u: Tables)
    requires Intact(t) && id in t.groups
    ensures ok <==> name.None? || NameFree(t.groups, Text.TrimSpace(name.value), id)
    ensures ok ==> Intact(u) && (ChildrenExist(t) ==> ChildrenExist(u))
    ensures ok ==>
      u == if name.Some? then t.(groups := t.groups[id := t.groups[id].(name := Text.TrimSpace(name.value))]) else t
    ensures ok ==> u == t.(groups := u.groups) && u.groups.Keys == t.groups.Keys
  {
    if name.None? {
      return true, t;
    }
    var g := t.groups[id].(name := Text.TrimSpace(name.value));
    if !NameFree(t.groups, g.name, id) {
      return false, t;
    }
    WrittenIntact(t, id, g);
    return true, t.(groups := t.groups[id := g]);
  }

  /** The bound on all groups goes with an update exactly when there is no room for its items. */
  ghost predicate BoundedIfRoom(t: Tables, u: Tables, id: int, items: Option<seq<ItemInput>>) {
    DepthBounded(t) ==> (DepthBounded(u) <==> items.None? || RoomAbove(t, id, items.value))
  }

  method WriteItems(t: Tables, id: int, items: Option<seq<ItemInput>>, ghost item: int) returns (ok: bool, u: Tables)
    requires Intact(t) && id in t.groups
    ensures ok <==> items.None? || Submittable(t, id, items.value)
    ensures ok ==> Intact(u) && (ChildrenExist(t) ==> ChildrenExist(u))
    ensures ok ==> if items.Some? then ItemsReplaced(t, u, id, items.value) else u == t
    ensures ok && items.Some? ==> GroupNesting.DepthHolds(GraphOf(u.items, u.nextItem), id)
    ensures ok ==> BoundedIfRoom(t, u, id, items)
    ensures ok && Stays(t, id, items, item) ==> item in u.items && u.items[item].ref.group == id
  {
    if items.None? {
      return true, t;
    }
    ok, u := SyncGroupItems(t, id, items.value);
    if ok {
      ReplacedAcyclic(t, u, id, items.value);
      if DepthBounded(t) {
        ReplacedBoundedExactly(t, u, id, items.value);
      }
      if Stays(t, id, items, item) {
        KeptExactly(t, u, id, items.value, item);
        ItemAfter(t, u, id, items.value, item);
      }
    }
  }

  /** Only an item of the group can be chosen, or none. */
  predicate CanChoose(t: Tables, id: int, active: Option<int>) {
    active.None? || active.value == 0 || (active.value in t.items && t.items[active.value].ref.group == id)
  }

  method WriteActive(t: Tables, id: int, active: Option<int>) returns (u: Tables)
    requires Intact(t) && id in t.groups && CanChoose(t, id, active)
    ensures Intact(u) && (ChildrenExist(t) ==> ChildrenExist(u))
    ensures u == if active.Some? then t.(groups := t.groups[id := t.groups[id].(active := active.value)]) else t
    ensures CanChoose(u, id, active) && GraphOf(u.items, u.nextItem) == GraphOf(t.items, t.nextItem)
  {
    if active.None? {
      return t;
    }
    WrittenIntact(t, id, t.groups[id].(active := active.value));
    return t.(groups := t.groups[id := t.groups[id].(active := active.value)]);
  }

  lemma UpdatedBySteps(t: Tables, named: Tables, replaced: Tables, u: Tables, id: int, name: Option<string>,
      items: Option<seq<ItemInput>>, active: Option<int>)
    requires Intact(t) && id in t.groups
    requires named ==
      if name.Some? then t.(groups := t.groups[id := t.groups[id].(name := Text.TrimSpace(name.value))]) else t
    requires if items.Some? then ItemsReplaced(named, replaced, id, items.value) else replaced == named
    requires u ==
      if active.Some? then replaced.(groups := replaced.groups[id := replaced.groups[id].(active := active.value)])
        else replaced
    requires Intact(replaced)
    ensures GroupUpdated(t, u, id, name, items, active)
  {
    assert ActiveSound(t, id) && ActiveSound(replaced, id);
    assert 0 !in replaced.items;
  }

  /** A name and items that can be written. */
  ghost predicate Updatable(t: Tables, id: int, name: Option<string>, items: Option<seq<ItemInput>>) {
    && id in t.groups
    && (name.Some? ==> NameFree(t.groups, Text.TrimSpace(name.value), id))
    && (items.Some? ==> Submittable(t, id, items.value))
  }

  /** Name, items and active item, in that order: the choice is checked against the items as written. */
  method UpdateGroup(t: Tables, id: int, name: Option<string>, items: Option<seq<ItemInput>>, active: Option<int>)
    returns (ok: bool, u: Tables)
    requires Intact(t)
    ensures ok ==> Intact(u) && (ChildrenExist(t) ==> ChildrenExist(u))
    ensures ok ==>
      Updatable(t, id, name, items) && GroupUpdated(t, u, id, name, items, active) && CanChoose(u, id, active)
    ensures
      Updatable(t, id, name, items) && (active.Some? && active.value != 0 ==> Stays(t, id, items, active.value)) ==>
      ok
    ensures ok && items.Some? ==> ItemsSubmitted(t, u, id, items.value)
    ensures ok && items.Some? ==> GroupNesting.DepthHolds(GraphOf(u.items, u.nextItem), id)
    ensures ok ==> BoundedIfRoom(t, u, id, items)
  {
    if id !in t.groups {
      return false, t;
    }
    ghost var item := if active.Some? then active.value else 0;
    ghost var named;
    ok, named, u := WriteNameAndItems(t, id, name, items, item);
    if !ok {
      return;
    }
    ok, u := ChooseItem(t, named, u, id, name, items, active);
    if ok {
      UpdatedInOrder(t, u, id, name, items, active);
    }
  }

  /** The first two steps of an update. */
  method WriteNameAndItems(t: Tables, id: int, name: Option<string>, items: Option<seq<ItemInput>>, ghost item: int)
    returns (ok: bool, ghost named: Tables, v: Tables)
    requires Intact(t) && id in t.groups
    ensures ok <==> Updatable(t, id, name, items)
    ensures ok ==> Intact(v) && id in v.groups && (ChildrenExist(t) ==> ChildrenExist(v))
    ensures ok ==>
      named == if name.Some? then t.(groups := t.groups[id := t.groups[id].(name := Text.TrimSpace(name.value))]) else t
    ensures ok ==> if items.Some? then ItemsReplaced(named, v, id, items.value) else v == named
    ensures ok && items.Some? ==> GroupNesting.DepthHolds(GraphOf(v.items, v.nextItem), id)
    ensures ok ==> BoundedIfRoom(t, v, id, items)
    ensures ok && Stays(t, id, items, item) ==> item in v.items && v.items[item].ref.group == id
  {
    named := t;
    ok, v := WriteName(t, id, name);
    if !ok {
      return;
    }
    named := v;
    SubmittableRenamed(t, named, id, items, item);
    ok, v := WriteItems(v, id, items, item);
  }

  /** The last step of an update: the choice, on the items as written. */
  method ChooseItem(ghost t: Tables, ghost named: Tables, v: Tables, id: int, ghost name: Option<string>,
      ghost items: Option<seq<ItemInput>>, active: Option<int>) returns (ok: bool, u: Tables)
    requires Intact(t) && id in t.groups && Intact(v) && id in v.groups
    requires named ==
      if name.Some? then t.(groups := t.groups[id := t.groups[id].(name := Text.TrimSpace(name.value))]) else t
    requires if items.Some? then ItemsReplaced(named, v, id, items.value) else v == named
    ensures ok <==> CanChoose(v, id, active)
    ensures ok ==> GroupUpdated(t, u, id, name, items, active) && CanChoose(u, id, active)
    ensures ok ==> Intact(u) && (ChildrenExist(v) ==> ChildrenExist(u))
    ensures ok ==> GraphOf(u.items, u.nextItem) == GraphOf(v.items, v.nextItem)
  {
    if !CanChoose(v, id, active) {
      return false, v;
    }
    u := WriteActive(v, id, active);
    UpdatedBySteps(t, named, v, u, id, name, items, active);
    ok := true;
  }

  /** Where a new group's items were written, no chain has become too long. */
  lemma CreatedBounded(t: Tables, u: Tables, name: string, inputs: seq<ItemInput>)
    requires Intact(t) && Intact(WithGroup(t, name)) && Submittable(WithGroup(t, name), t.nextGroup, inputs)
    requires ItemsReplaced(WithGroup(t, name), u, t.nextGroup, inputs)
    ensures DepthBounded(t) ==> DepthBounded(u)
  {
    var v := WithGroup(t, name);
    forall id | id in v.items ensures v.items[id].ref.child != t.nextGroup {
      assert ItemSound(t, id);
    }
    RoomAboveNew(v, t.nextGroup, inputs);
    if DepthBounded(t) {
      ReplacedBoundedExactly(v, u, t.nextGroup, inputs);
    }
  }

  lemma CreatedInOrder(t: Tables, u: Tables, name: string, inputs: seq<ItemInput>)
    requires DistinctTargets(inputs) && ItemsReplaced(WithGroup(t, name), u, t.nextGroup, inputs)
    ensures ItemsSubmitted(t, u, t.nextGroup, inputs)
  {
    SubmittedInOrder(WithGroup(t, name), u, t.nextGroup, inputs);
    forall id ensures ItemSubmitted(t, u, t.nextGroup, inputs, id) {
      assert ItemSubmitted(WithGroup(t, name), u, t.nextGroup, inputs, id);
    }
  }

  /** A new group with its items, under the next id. */
  method CreateGroup(t: Tables, name: string, inputs: seq<ItemInput>) returns (ok: bool, u: Tables)
    requires Intact(t)
    ensures ok <==> NameFree(t.groups, name, 0) && Submittable(t, 0, inputs)
    ensures ok ==>
      Intact(u) && (ChildrenExist(t) ==> ChildrenExist(u)) && ItemsReplaced(WithGroup(t, name), u, t.nextGroup, inputs)
    ensures ok ==> u.groups == t.groups[t.nextGroup := Group(name, 0)] && ItemsSubmitted(t, u, t.nextGroup, inputs)
    ensures ok ==>
      GroupNesting.DepthHolds(GraphOf(u.items, u.nextItem), t.nextGroup) && (DepthBounded(t) ==> DepthBounded(u))
  {
    u := t;
    if name == "" {
      return false, t;
    }
    ok := CheckItems(t, 0, inputs);
    // From here on the database refuses what its indexes do not allow.
    if !ok || !NameFree(t.groups, name, 0) {
      return false, t;
    }
    NewGroupIntact(t, name);
    var v := WithGroup(t, name);
    DistinctWanted(t.nextGroup, inputs);
    var items, next;
    ok, items, next := Sync(v.items, OfGroup(t.nextGroup), Wanted(t.nextGroup, inputs), Rewritten(), v.nextItem);
    if ok {
      u := v.(items := items, nextItem := next);
      CheckedBeforeItExists(t, inputs, name);
      assert ActiveSound(v, t.nextGroup);
      ReplacedIntact(v, u, t.nextGroup, inputs);
      ReplacedAcyclic(v, u, t.nextGroup, inputs);
      CreatedBounded(t, u, name, inputs);
      CreatedInOrder(t, u, name, inputs);
    }
  }

  /** A group's name has nothing to do with which items it can hold. */
  lemma SubmittableRenamed(t: Tables, u: Tables, id: int, items: Option<seq<ItemInput>>, item: int)
    requires u == t.(groups := u.groups) && u.groups.Keys == t.groups.Keys
    ensures items.Some? ==> (Submittable(u, id, items.value) <==> Submittable(t, id, items.value))
    ensures Stays(u, id, items, item) <==> Stays(t, id, items, item)
  {
  }

  /** The tables without a group: no item belongs to it or refers to it, no other item is lost, and a
      choice is cleared exactly when its item referred to it. */
  function GroupDeleted(t: Tables, id: int): Tables {
    var refs := set i | i in t.items && t.items[i].ref.child == id;
    t.(groups := Released(t.groups, refs) - {id},
       items := map i | i in t.items && t.items[i].ref.child != id && t.items[i].ref.group != id :: t.items[i])
  }

  /** A group is gone, with the items in it and the items that refer to it, and with nothing else; another group
      loses its choice exactly when that was an item which referred to it. */
  ghost predicate GroupGone(t: Tables, u: Tables, id: int) {
    && u == t.(groups := u.groups, items := u.items)
    && (forall i :: i in u.items <==> i in t.items && t.items[i].ref.group != id && t.items[i].ref.child != id)
    && (forall i :: i in u.items ==> u.items[i] == t.items[i])
    && (forall g :: g in u.groups <==> g in t.groups && g != id)
    && (forall g :: g in u.groups ==>
          && u.groups[g].name == t.groups[g].name
          && var active := t.groups[g].active;
             u.groups[g].active == if active in t.items && t.items[active].ref.child == id then 0 else active)
  }

  lemma DeletedInFull(t: Tables, id: int)
    ensures GroupGone(t, GroupDeleted(t, id), id)
  {
  }

  lemma DeletedBounded(t: Tables, id: int)
    requires Intact(t)
    ensures DepthBounded(t) ==> DepthBounded(GroupDeleted(t, id))
  {
    FewerReferencesBounded(t, GroupDeleted(t, id));
  }

  lemma DeletedIntact(t: Tables, id: int)
    requires Intact(t) && id in t.groups
    ensures Intact(GroupDeleted(t, id)) && (ChildrenExist(t) ==> ChildrenExist(GroupDeleted(t, id)))
    ensures var refs := set i | i in t.items && t.items[i].ref.child == id;
      var u := WithoutItems(t, refs);
      GroupDeleted(t, id).items == u.items - (set i | i in u.items && u.items[i].ref.group == id)
  {
    var refs := set i | i in t.items && t.items[i].ref.child == id;
    var u, v := WithoutItems(t, refs), GroupDeleted(t, id);
    WithoutItemsIntact(t, refs);
    assert v.items == u.items - (set i | i in u.items && u.items[i].ref.group == id);
    WithoutGroupIntact(u, v, id);
    forall i | ChildSound(t, i) ensures ChildSound(v, i) {
    }
  }

  /** Taking out a group and its items. */
  lemma WithoutGroupIntact(u: Tables, v: Tables, id: int)
    requires Intact(u) && id in u.groups
    requires v == u.(groups := u.groups - {id}, items := v.items)
    requires v.items == u.items - (set i | i in u.items && u.items[i].ref.group == id)
    ensures Intact(v)
  {
    FewerItemsAcyclic(u, v.items);
    forall i ensures ItemSound(v, i) {
      assert ItemSound(u, i);
    }
    forall g ensures ActiveSound(v, g) {
      assert ActiveSound(u, g);
    }
    forall i ensures GrantSound(v, i) {
      assert GrantSound(u, i);
    }
  }
}
