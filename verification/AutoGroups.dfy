/** The groups a channel gets for its models, `channel/model`: filling them in after a write to the
    channel, and pruning those that nothing stands behind any more. */
module AutoGroups {
  import opened Common
  import opened Reconcile
  import opened Database
  import ChannelSync
  import GroupNesting
  import GroupStore
  import Text

  // ---------- Filling in ----------

  /** The grants of a model, ids ascending. */
  function GrantIds(grants: map<int, Row<GrantRef, bv8>>, model: int, next: int): seq<int>
    decreases next
  {
    if next <= 0 then []
    else
      var id, init := next - 1, GrantIds(grants, model, next - 1);
      if id in grants && grants[id].ref.model == model then init + [id] else init
  }

  predicate IsGrantOf(grants: map<int, Row<GrantRef, bv8>>, model: int, id: int) {
    id in grants && grants[id].ref.model == model
  }

  lemma {:induction false} GrantIdsFacts(grants: map<int, Row<GrantRef, bv8>>, model: int, next: int)
    ensures forall id :: id in GrantIds(grants, model, next) <==> 0 <= id < next && IsGrantOf(grants, model, id)
    ensures forall i, j :: 0 <= i < j < |GrantIds(grants, model, next)| ==>
      GrantIds(grants, model, next)[i] < GrantIds(grants, model, next)[j]
    decreases next
  {
    if next > 0 {
      GrantIdsFacts(grants, model, next - 1);
      var init, ids := GrantIds(grants, model, next - 1), GrantIds(grants, model, next);
      forall i, j | 0 <= i < j < |ids| ensures ids[i] < ids[j] {
        assert ids[i] == init[i] && init[i] in init;
      }
    }
  }

  predicate HasItem(t: Tables, group: int, grant: int) { HasRef(t.items, ItemRef(group, grant, 0)) }

  /** The group of that name has every grant of the model. */
  ghost predicate CompleteIn(t: Tables, group: int, name: string, model: int) {
    group in t.groups && t.groups[group].name == name
    && forall id :: IsGrantOf(t.grants, model, id) ==> HasItem(t, group, id)
  }

  ghost predicate Complete(t: Tables, name: string, model: int) { exists g :: CompleteIn(t, g, name, model) }

  /** Nothing is taken away and nothing is changed; what is added is below. */
  ghost predicate Grown(t: Tables, u: Tables) {
    && u == t.(groups := u.groups, items := u.items, nextGroup := u.nextGroup, nextItem := u.nextItem)
    && t.nextGroup <= u.nextGroup && t.nextItem <= u.nextItem
    && (forall g :: GroupGrown(t, u, g))
    && (forall id :: ItemGrown(t, u, id))
  }

  /** A new group starts without a choice. */
  predicate GroupGrown(t: Tables, u: Tables, g: int) {
    && (g in t.groups ==> g in u.groups && u.groups[g] == t.groups[g])
    && (g in u.groups && g !in t.groups ==> t.nextGroup <= g && u.groups[g].active == 0)
  }

  /** Some item of the group has the priority, or it is the one before the first. */
  predicate Attained(items: Items, group: int, priority: int, below: int) {
    priority == 0
    || exists id :: id in items && id < below && items[id].ref.group == group && items[id].value.priority == priority
  }

  /** A new item is right behind every item its group had when it came, and declares no tier. */
  ghost predicate ItemGrown(t: Tables, u: Tables, id: int) {
    && (id in t.items ==> id in u.items && u.items[id] == t.items[id])
    && (id in u.items && id !in t.items ==>
          && t.nextItem <= id && u.items[id].ref.child == 0 && u.items[id].value.tier == ""
          && Attained(u.items, u.items[id].ref.group, u.items[id].value.priority - 1, id)
          && forall other :: other in u.items && other < id && u.items[other].ref.group == u.items[id].ref.group ==>
               u.items[other].value.priority < u.items[id].value.priority)
  }

  lemma AttainedStill(u: Tables, v: Tables, group: int, priority: int, below: int)
    requires Grown(u, v) && Attained(u.items, group, priority, below)
    ensures Attained(v.items, group, priority, below)
  {
    forall id | id in u.items ensures id in v.items && v.items[id] == u.items[id] {
      assert ItemGrown(u, v, id);
    }
    AttainedMore(u.items, v.items, group, priority, below);
  }

  lemma AttainedMore(items: Items, more: Items, group: int, priority: int, below: int)
    requires Attained(items, group, priority, below)
    requires forall id :: id in items && id < below ==> id in more && more[id] == items[id]
    ensures Attained(more, group, priority, below)
  {
    if priority != 0 {
      var id :| id in items && id < below && items[id].ref.group == group && items[id].value.priority == priority;
      assert id in more;
    }
  }

  lemma GrownTwice(t: Tables, u: Tables, v: Tables)
    requires Intact(t) && Intact(u) && Grown(t, u) && Grown(u, v)
    ensures Grown(t, v)
  {
    forall g ensures GroupGrown(t, v, g) {
      assert GroupGrown(t, u, g) && GroupGrown(u, v, g);
    }
    forall id ensures ItemGrown(t, v, id) {
      assert ItemGrown(t, u, id) && ItemGrown(u, v, id);
      if id in u.items && id !in t.items {
        AttainedStill(u, v, u.items[id].ref.group, u.items[id].value.priority - 1, id);
        forall other | other in v.items && other < id && v.items[other].ref.group == v.items[id].ref.group
          ensures v.items[other].value.priority < v.items[id].value.priority
        {
          assert ItemGrown(u, v, other);
        }
      }
    }
  }

  lemma CompleteStays(t: Tables, u: Tables, name: string, model: int)
    requires Grown(t, u) && Complete(t, name, model)
    ensures Complete(u, name, model)
  {
    var g :| CompleteIn(t, g, name, model);
    assert GroupGrown(t, u, g);
    forall id | IsGrantOf(t.grants, model, id) ensures HasItem(u, g, id) {
      assert HasItem(t, g, id);
      var item :| item in t.items && t.items[item].ref == ItemRef(g, id, 0);
      assert ItemGrown(t, u, item);
      assert item in u.items && u.items[item].ref == ItemRef(g, id, 0);
    }
    assert CompleteIn(u, g, name, model);
  }

  /** The grants a group has, and its largest priority. */
  method Survey(t: Tables, group: int) returns (grantSet: set<int>, maxPriority: int)
    requires Below(t.items, t.nextItem)
    ensures forall grant :: grant in grantSet <==>
      exists id :: id in t.items && t.items[id].ref.group == group && t.items[id].ref.grant == grant
    ensures maxPriority >= 0 && Attained(t.items, group, maxPriority, t.nextItem)
    ensures forall id :: id in t.items && t.items[id].ref.group == group ==> t.items[id].value.priority <= maxPriority
  {
    grantSet, maxPriority := {}, 0;
    var id := 0;
    while id < t.nextItem
      invariant 0 <= id
      invariant forall grant :: grant in grantSet <==>
        exists k :: k in t.items && k < id && t.items[k].ref.group == group && t.items[k].ref.grant == grant
      invariant maxPriority >= 0 && Attained(t.items, group, maxPriority, id)
      invariant forall k :: k in t.items && k < id && t.items[k].ref.group == group ==>
        t.items[k].value.priority <= maxPriority
    {
      if id in t.items && t.items[id].ref.group == group {
        grantSet := grantSet + {t.items[id].ref.grant};
        if t.items[id].value.priority > maxPriority {
          maxPriority := t.items[id].value.priority;
        }
      }
      id := id + 1;
    }
  }

  /** One more item at the end of a group. */
  function Appended(t: Tables, group: int, grant: int, priority: int): Tables {
    t.(items := t.items[t.nextItem := Row(ItemRef(group, grant, 0), Place(priority, ""))], nextItem := t.nextItem + 1)
  }

  lemma AppendedGrown(t: Tables, group: int, grant: int, priority: int)
    requires Below(t.items, t.nextItem) && Attained(t.items, group, priority - 1, t.nextItem)
    requires forall id :: id in t.items && t.items[id].ref.group == group ==> t.items[id].value.priority < priority
    ensures Grown(t, Appended(t, group, grant, priority))
  {
    var u := Appended(t, group, grant, priority);
    AttainedMore(t.items, u.items, group, priority - 1, t.nextItem);
    forall id ensures ItemGrown(t, u, id) {
    }
    forall g ensures GroupGrown(t, u, g) {
    }
  }

  lemma AppendedIntact(t: Tables, group: int, grant: int, priority: int)
    requires Intact(t) && group in t.groups && grant in t.grants && !HasItem(t, group, grant)
    requires Attained(t.items, group, priority - 1, t.nextItem)
    requires forall id :: id in t.items && t.items[id].ref.group == group ==> t.items[id].value.priority < priority
    ensures Intact(Appended(t, group, grant, priority)) && Grown(t, Appended(t, group, grant, priority))
    ensures ChildrenExist(t) ==> ChildrenExist(Appended(t, group, grant, priority))
    ensures HasItem(Appended(t, group, grant, priority), group, grant)
  {
    var u := Appended(t, group, grant, priority);
    AppendedAcyclic(t, group, grant, priority);
    forall id ensures ItemSound(u, id) {
      assert ItemSound(t, id);
    }
    forall g ensures ActiveSound(u, g) {
      assert ActiveSound(t, g);
    }
    forall id ensures GrantSound(u, id) {
      assert GrantSound(t, id);
    }
    forall id | ChildSound(t, id) ensures ChildSound(u, id) {
    }
    AppendedGrown(t, group, grant, priority);
    assert u.items[t.nextItem].ref == ItemRef(group, grant, 0);
  }

  lemma AppendedAcyclic(t: Tables, group: int, grant: int, priority: int)
    requires Intact(t)
    ensures AcyclicGroups(Appended(t, group, grant, priority))
  {
    var u := Appended(t, group, grant, priority);
    var g, h := GraphOf(t.items, t.nextItem), GraphOf(u.items, u.nextItem);
    forall x, c | c in GroupNesting.Edges(h, x) ensures c in GroupNesting.Edges(g, x) {
      EdgesExactly(u.items, u.nextItem, x, c);
      EdgesExactly(t.items, t.nextItem, x, c);
      var id :| IsEdge(u.items, x, c, id);
      assert IsEdge(t.items, x, c, id);
    }
    FewerEdgesFewerWalks(g, h);
  }

  ghost predicate Ascending(ids: seq<int>) { forall i, j :: 0 <= i < j < |ids| ==> ids[i] < ids[j] }

  predicate AllThere(t: Tables, group: int, grantIDs: seq<int>) {
    forall i :: 0 <= i < |grantIDs| ==> HasItem(t, group, grantIDs[i])
  }

  /** Nothing was added but items of the group for grants of the list. */
  ghost predicate AddedFor(t: Tables, u: Tables, group: int, grantIDs: seq<int>) {
    forall id :: id in u.items && id !in t.items ==> u.items[id].ref.group == group && u.items[id].ref.grant in grantIDs
  }

  /** The group after some grants were seen to. */
  ghost predicate Completed(t: Tables, u: Tables, group: int, done: seq<int>) {
    && Intact(u) && Grown(t, u) && u.groups == t.groups && (ChildrenExist(t) ==> ChildrenExist(u))
    && AllThere(u, group, done) && AddedFor(t, u, group, done)
    && (AllThere(t, group, done) ==> u == t)
  }

  /** The largest priority in the group, or 0. */
  ghost predicate Tops(t: Tables, group: int, priority: int) {
    && Attained(t.items, group, priority, t.nextItem)
    && forall id :: id in t.items && t.items[id].ref.group == group ==> t.items[id].value.priority <= priority
  }

  lemma CompletedNone(t: Tables, group: int)
    requires Intact(t)
    ensures Completed(t, t, group, [])
  {
    forall g ensures GroupGrown(t, t, g) {
    }
    forall id ensures ItemGrown(t, t, id) {
    }
  }

  lemma AllThereSnoc(t: Tables, group: int, done: seq<int>, grant: int)
    ensures AllThere(t, group, done + [grant]) <==> AllThere(t, group, done) && HasItem(t, group, grant)
  {
    var all := done + [grant];
    assert forall i :: 0 <= i < |done| ==> all[i] == done[i];
    assert all[|done|] == grant;
  }

  lemma StepPresent(t: Tables, u: Tables, group: int, done: seq<int>, grant: int)
    requires Completed(t, u, group, done) && HasItem(t, group, grant)
    ensures Completed(t, u, group, done + [grant])
  {
    KeepsItem(t, u, group, grant);
    AllThereSnoc(u, group, done, grant);
    AllThereSnoc(t, group, done, grant);
  }

  lemma StepMissing(t: Tables, u: Tables, group: int, done: seq<int>, grant: int, priority: int)
    requires Intact(t) && group in t.groups && Completed(t, u, group, done)
    requires grant in t.grants && grant !in done && !HasItem(t, group, grant) && Tops(u, group, priority - 1)
    ensures Completed(t, Appended(u, group, grant, priority), group, done + [grant])
    ensures Tops(Appended(u, group, grant, priority), group, priority)
  {
    var v := Appended(u, group, grant, priority);
    NotYetThere(t, u, group, done, grant);
    AppendedIntact(u, group, grant, priority);
    GrownTwice(t, u, v);
    forall i | 0 <= i < |done| ensures HasItem(v, group, done[i]) {
      KeepsItem(u, v, group, done[i]);
    }
    AllThereSnoc(v, group, done, grant);
    AllThereSnoc(t, group, done, grant);
  }

  lemma InSetExactly(t: Tables, group: int, grant: int, grantSet: set<int>)
    requires Intact(t) && grant in t.grants
    requires forall g :: g in grantSet <==>
      exists id :: id in t.items && t.items[id].ref.group == group && t.items[id].ref.grant == g
    ensures grant in grantSet <==> HasItem(t, group, grant)
  {
    if grant in grantSet {
      var id :| id in t.items && t.items[id].ref.group == group && t.items[id].ref.grant == grant;
      assert ItemSound(t, id);
      assert t.items[id].ref == ItemRef(group, grant, 0);
    }
  }

  lemma KeepsItem(t: Tables, u: Tables, group: int, grant: int)
    requires Grown(t, u) && HasItem(t, group, grant)
    ensures HasItem(u, group, grant)
  {
    var id :| id in t.items && t.items[id].ref == ItemRef(group, grant, 0);
    assert ItemGrown(t, u, id);
    assert u.items[id].ref == ItemRef(group, grant, 0);
  }

  lemma NotYetThere(t: Tables, u: Tables, group: int, done: seq<int>, grant: int)
    requires Grown(t, u) && AddedFor(t, u, group, done) && grant !in done && !HasItem(t, group, grant)
    ensures !HasItem(u, group, grant)
  {
    forall id | id in u.items ensures u.items[id].ref != ItemRef(group, grant, 0) {
      assert ItemGrown(t, u, id);
    }
  }

  method AppendOne(ghost t: Tables, u: Tables, group: int, ghost done: seq<int>, grant: int, grantSet: set<int>,
      maxPriority: int) returns (v: Tables, max: int)
    requires Intact(t) && group in t.groups && Completed(t, u, group, done) && Tops(u, group, maxPriority)
    requires grant in t.grants && grant !in done && (grant in grantSet <==> HasItem(t, group, grant))
    ensures Completed(t, v, group, done + [grant]) && Tops(v, group, max)
  {
    if grant in grantSet {
      StepPresent(t, u, group, done, grant);
      return u, maxPriority;
    }
    max := maxPriority + 1;
    StepMissing(t, u, group, done, grant, max);
    v := Appended(u, group, grant, max);
  }

  /** Appends the grants the group lacks, in the order given, behind everything it has. */
  method AppendMissing(t: Tables, group: int, grantIDs: seq<int>) returns (u: Tables)
    requires Intact(t) && group in t.groups
    requires forall i :: 0 <= i < |grantIDs| ==> grantIDs[i] in t.grants
    requires Ascending(grantIDs)
    ensures Completed(t, u, group, grantIDs)
  {
    u := t;
    var grantSet, maxPriority := Survey(t, group);
    CompletedNone(t, group);
    for i := 0 to |grantIDs|
      invariant Completed(t, u, group, grantIDs[..i])
      invariant Tops(u, group, maxPriority)
    {
      OneMore(grantIDs, i);
      InSetExactly(t, group, grantIDs[i], grantSet);
      u, maxPriority := AppendOne(t, u, group, grantIDs[..i], grantIDs[i], grantSet, maxPriority);
    }
    OneMore(grantIDs, |grantIDs|);
  }

  // ---------- One model, all models ----------

  predicate NameTaken(t: Tables, name: string) { exists g :: g in t.groups && t.groups[g].name == name }

  /** What was added for one model: at most its group, and items of that group for its grants. */
  ghost predicate OnlyFor(t: Tables, u: Tables, name: string, model: int) {
    && (forall g :: g in u.groups && g !in t.groups ==> u.groups[g].name == name)
    && (forall id :: id in u.items && id !in t.items ==>
          u.items[id].ref.group in u.groups && u.groups[u.items[id].ref.group].name == name
          && IsGrantOf(t.grants, model, u.items[id].ref.grant))
  }

  ghost predicate HasGrants(t: Tables, model: int) { exists id :: IsGrantOf(t.grants, model, id) }

  ghost predicate Filled(t: Tables, u: Tables, name: string, model: int) {
    && Intact(u) && Grown(t, u) && (ChildrenExist(t) ==> ChildrenExist(u))
    && OnlyFor(t, u, name, model)
    && (HasGrants(t, model) ==> Complete(u, name, model))
    && (HasGrants(t, model) && Complete(t, name, model) ==> u == t)
    && (!HasGrants(t, model) ==> u == t)
  }

  lemma GroupAddedGrown(t: Tables, name: string)
    requires Intact(t)
    ensures Grown(t, GroupStore.WithGroup(t, name))
  {
    var u := GroupStore.WithGroup(t, name);
    forall g ensures GroupGrown(t, u, g) {
    }
    forall id ensures ItemGrown(t, u, id) {
    }
  }

  lemma CompleteExactly(t: Tables, group: int, name: string, model: int)
    requires Intact(t) && group in t.groups && t.groups[group].name == name
    ensures Complete(t, name, model) <==> AllThere(t, group, GrantIds(t.grants, model, t.nextGrant))
  {
    var ids := GrantIds(t.grants, model, t.nextGrant);
    GrantIdsFacts(t.grants, model, t.nextGrant);
    if Complete(t, name, model) {
      var g :| CompleteIn(t, g, name, model);
      assert g == group;
      forall i | 0 <= i < |ids| ensures HasItem(t, group, ids[i]) {
        assert ids[i] in ids;
      }
    }
    if AllThere(t, group, ids) {
      forall id | IsGrantOf(t.grants, model, id) ensures HasItem(t, group, id) {
        assert id in ids;
      }
      assert CompleteIn(t, group, name, model);
    }
  }

  lemma FilledExisting(t: Tables, u: Tables, group: int, name: string, model: int)
    requires Intact(t) && group in t.groups && t.groups[group].name == name
    requires Completed(t, u, group, GrantIds(t.grants, model, t.nextGrant)) && HasGrants(t, model)
    ensures Filled(t, u, name, model)
  {
    GrantIdsFacts(t.grants, model, t.nextGrant);
    CompleteExactly(t, group, name, model);
    CompleteExactly(u, group, name, model);
  }

  lemma FilledNew(t: Tables, u: Tables, name: string, model: int)
    requires Intact(t) && !NameTaken(t, name)
    requires Intact(GroupStore.WithGroup(t, name)) && Filled(GroupStore.WithGroup(t, name), u, name, model)
    requires HasGrants(t, model)
    requires ChildrenExist(t) ==> ChildrenExist(GroupStore.WithGroup(t, name))
    ensures Filled(t, u, name, model)
  {
    GroupAddedGrown(t, name);
    GrownTwice(t, GroupStore.WithGroup(t, name), u);
    forall g ensures !CompleteIn(t, g, name, model) {
    }
    forall g | g in u.groups && g !in t.groups ensures u.groups[g].name == name {
      assert GroupGrown(GroupStore.WithGroup(t, name), u, g);
    }
  }

  /** Sees to the group of one model: creates it when the name is free, then appends what is missing. */
  method EnsureAutoGroup(t: Tables, name: string, model: int) returns (u: Tables)
    requires Intact(t)
    ensures Filled(t, u, name, model)
  {
    var grantIDs := GrantIds(t.grants, model, t.nextGrant);
    GrantIdsFacts(t.grants, model, t.nextGrant);
    u := t;
    if grantIDs == [] {
      return;
    }
    assert IsGrantOf(t.grants, model, grantIDs[0]) by {
      assert grantIDs[0] in grantIDs;
    }
    forall i | 0 <= i < |grantIDs| ensures grantIDs[i] in t.grants {
      assert grantIDs[i] in grantIDs;
    }
    if NameTaken(t, name) {
      var group :| group in t.groups && t.groups[group].name == name;
      u := AppendMissing(t, group, grantIDs);
      FilledExisting(t, u, group, name, model);
    } else {
      GroupStore.NewGroupIntact(t, name);
      var v := GroupStore.WithGroup(t, name);
      u := AppendMissing(v, t.nextGroup, grantIDs);
      FilledExisting(v, u, t.nextGroup, name, model);
      FilledNew(t, u, name, model);
    }
  }

  ghost predicate IsSubmitted(modelNames: seq<string>, name: string) {
    name != "" && exists i :: 0 <= i < |modelNames| && Text.TrimSpace(modelNames[i]) == name
  }

  /** The submitted names, trimmed, without blanks and repetitions. */
  method CleanNames(modelNames: seq<string>) returns (models: seq<string>)
    ensures forall name :: name in models <==> IsSubmitted(modelNames, name)
  {
    models := [];
    for i := 0 to |modelNames|
      invariant forall name :: name in models <==>
        name != "" && exists k :: 0 <= k < i && Text.TrimSpace(modelNames[k]) == name
    {
      var name := Text.TrimSpace(modelNames[i]);
      if name != "" && name !in models {
        models := models + [name];
      }
    }
  }

  /** Every model of that name in the channel that has grants has its group, complete. */
  ghost predicate NameComplete(t: Tables, channel: int, prefix: string, name: string) {
    forall m :: m in t.models && t.models[m].ref == Named(channel, name) && HasGrants(t, m) ==>
      Complete(t, prefix + name, m)
  }

  ghost predicate AllComplete(t: Tables, channel: int, prefix: string, names: seq<string>) {
    forall i :: 0 <= i < |names| ==> NameComplete(t, channel, prefix, names[i])
  }

  /** A group that was added has the automatic name of a submitted model. */
  ghost predicate GroupAdded(t: Tables, u: Tables, prefix: string, names: seq<string>, g: int) {
    g in u.groups && g !in t.groups ==> exists i :: 0 <= i < |names| && u.groups[g].name == prefix + names[i]
  }

  /** An item of the automatic group of a model of the channel, for a grant of that model. */
  predicate ItemFor(t: Tables, u: Tables, channel: int, prefix: string, name: string, id: int) {
    && id in u.items && u.items[id].ref.group in u.groups && u.groups[u.items[id].ref.group].name == prefix + name
    && u.items[id].ref.grant in t.grants && t.grants[u.items[id].ref.grant].ref.model in t.models
    && t.models[t.grants[u.items[id].ref.grant].ref.model].ref == Named(channel, name)
  }

  /** An item that was added is one of the automatic group of a submitted model, for a grant of that model. */
  ghost predicate ItemAdded(t: Tables, u: Tables, channel: int, prefix: string, names: seq<string>, id: int) {
    id in u.items && id !in t.items ==> exists i :: 0 <= i < |names| && ItemFor(t, u, channel, prefix, names[i], id)
  }

  ghost predicate AddedForChannel(t: Tables, u: Tables, channel: int, prefix: string, names: seq<string>) {
    && (forall g :: GroupAdded(t, u, prefix, names, g))
    && (forall id :: ItemAdded(t, u, channel, prefix, names, id))
  }

  ghost predicate Ensured(t: Tables, u: Tables, channel: int, prefix: string, names: seq<string>) {
    && Intact(u) && Grown(t, u) && (ChildrenExist(t) ==> ChildrenExist(u))
    && AllComplete(u, channel, prefix, names) && AddedForChannel(t, u, channel, prefix, names)
    && (AllComplete(t, channel, prefix, names) ==> u == t)
  }

  lemma EnsureStep(t: Tables, u: Tables, v: Tables, channel: int, prefix: string, done: seq<string>, name: string,
      model: int)
    requires Intact(t) && Ensured(t, u, channel, prefix, done)
    requires model in u.models && u.models[model].ref == Named(channel, name) && Filled(u, v, prefix + name, model)
    ensures Ensured(t, v, channel, prefix, done + [name])
  {
    var all := done + [name];
    GrownTwice(t, u, v);
    forall i | 0 <= i < |all| ensures NameComplete(v, channel, prefix, all[i]) {
      forall m | m in v.models && v.models[m].ref == Named(channel, all[i]) && HasGrants(v, m)
        ensures Complete(v, prefix + all[i], m)
      {
        if i < |done| {
          assert NameComplete(u, channel, prefix, done[i]);
          assert HasGrants(u, m);
          CompleteStays(u, v, prefix + all[i], m);
        } else {
          assert m == model;
        }
      }
    }
    AddedStep(t, u, v, channel, prefix, done, name, model);
    if AllComplete(t, channel, prefix, all) {
      forall i | 0 <= i < |done| ensures NameComplete(t, channel, prefix, done[i]) {
        assert all[i] == done[i];
      }
      assert NameComplete(t, channel, prefix, all[|done|]);
    }
  }

  lemma AddedStep(t: Tables, u: Tables, v: Tables, channel: int, prefix: string, done: seq<string>, name: string,
      model: int)
    requires Grown(t, u) && Grown(u, v) && AddedForChannel(t, u, channel, prefix, done)
    requires model in u.models && u.models[model].ref == Named(channel, name) && OnlyFor(u, v, prefix + name, model)
    ensures AddedForChannel(t, v, channel, prefix, done + [name])
  {
    var all := done + [name];
    assert all[|done|] == name;
    forall g ensures GroupAdded(t, v, prefix, all, g) {
      assert GroupGrown(u, v, g);
      if g in u.groups && g !in t.groups {
        GroupAddedMore(t, u, prefix, done, name, g);
      }
    }
    forall id ensures ItemAdded(t, v, channel, prefix, all, id) {
      ItemAddedStep(t, u, v, channel, prefix, done, name, model, id);
    }
  }

  lemma GroupAddedMore(t: Tables, u: Tables, prefix: string, done: seq<string>, name: string, g: int)
    requires GroupAdded(t, u, prefix, done, g)
    ensures GroupAdded(t, u, prefix, done + [name], g)
  {
    if g in u.groups && g !in t.groups {
      var i :| 0 <= i < |done| && u.groups[g].name == prefix + done[i];
      assert (done + [name])[i] == done[i];
    }
  }

  lemma ItemAddedMore(t: Tables, u: Tables, channel: int, prefix: string, done: seq<string>, name: string, id: int)
    requires ItemAdded(t, u, channel, prefix, done, id)
    ensures ItemAdded(t, u, channel, prefix, done + [name], id)
  {
    if id in u.items && id !in t.items {
      var i :| 0 <= i < |done| && ItemFor(t, u, channel, prefix, done[i], id);
      assert (done + [name])[i] == done[i];
    }
  }

  lemma ItemAddedStep(t: Tables, u: Tables, v: Tables, channel: int, prefix: string, done: seq<string>, name: string,
      model: int, id: int)
    requires Grown(t, u) && Grown(u, v) && ItemAdded(t, u, channel, prefix, done, id)
    requires model in u.models && u.models[model].ref == Named(channel, name) && OnlyFor(u, v, prefix + name, model)
    ensures ItemAdded(t, v, channel, prefix, done + [name], id)
  {
    var all := done + [name];
    assert all[|done|] == name;
    assert ItemGrown(u, v, id);
    if id in v.items && id !in t.items {
      if id in u.items {
        var i :| 0 <= i < |done| && ItemFor(t, u, channel, prefix, done[i], id);
        assert GroupGrown(u, v, u.items[id].ref.group);
        assert all[i] == done[i] && ItemFor(t, v, channel, prefix, all[i], id);
      } else {
        assert IsGrantOf(u.grants, model, v.items[id].ref.grant);
        assert ItemFor(t, v, channel, prefix, all[|done|], id);
      }
    }
  }

  lemma EnsureSkip(t: Tables, u: Tables, channel: int, prefix: string, done: seq<string>, name: string)
    requires Ensured(t, u, channel, prefix, done) && !HasRef(t.models, Named(channel, name))
    ensures Ensured(t, u, channel, prefix, done + [name])
  {
    var all := done + [name];
    forall i | 0 <= i < |all| ensures NameComplete(u, channel, prefix, all[i]) {
      assert i < |done| ==> NameComplete(u, channel, prefix, done[i]);
    }
    forall g ensures GroupAdded(t, u, prefix, all, g) {
      GroupAddedMore(t, u, prefix, done, name, g);
    }
    forall id ensures ItemAdded(t, u, channel, prefix, all, id) {
      ItemAddedMore(t, u, channel, prefix, done, name, id);
    }
    if AllComplete(t, channel, prefix, all) {
      forall i | 0 <= i < |done| ensures NameComplete(t, channel, prefix, done[i]) {
        assert all[i] == done[i];
      }
    }
  }

  lemma EnsureNone(t: Tables, channel: int, prefix: string)
    requires Intact(t)
    ensures Ensured(t, t, channel, prefix, [])
  {
    forall g ensures GroupGrown(t, t, g) {
    }
    forall id ensures ItemGrown(t, t, id) {
    }
  }

  method EnsureNext(ghost t: Tables, u: Tables, channel: int, prefix: string, ghost done: seq<string>, name: string,
      modelIDByName: map<string, int>) returns (v: Tables)
    requires Intact(t) && Ensured(t, u, channel, prefix, done) && modelIDByName == ChannelSync.ByName(t.models, channel)
    ensures Ensured(t, v, channel, prefix, done + [name])
  {
    if name !in modelIDByName {
      EnsureSkip(t, u, channel, prefix, done, name);
      v := u;
    } else {
      v := EnsureAutoGroup(u, prefix + name, modelIDByName[name]);
      EnsureStep(t, u, v, channel, prefix, done, name, modelIDByName[name]);
    }
  }

  /** The filling-in part: every submitted model of the channel that has grants gets its group. */
  method EnsureModels(t: Tables, channel: int, prefix: string, models: seq<string>) returns (u: Tables)
    requires Intact(t)
    ensures Ensured(t, u, channel, prefix, models)
  {
    u := t;
    var modelIDByName := ChannelSync.ByName(t.models, channel);
    EnsureNone(t, channel, prefix);
    for i := 0 to |models|
      invariant Ensured(t, u, channel, prefix, models[..i])
    {
      OneMore(models, i);
      u := EnsureNext(t, u, channel, prefix, models[..i], models[i], modelIDByName);
    }
    OneMore(models, |models|);
  }

  // ---------- Pruning ----------

  /** The channel a grant belongs to, if the grant and its model are there. */
  predicate IsLive(t: Tables, grant: int) { grant in t.grants && t.grants[grant].ref.model in t.models }

  /** An item whose grant is gone. */
  predicate Stale(t: Tables, ref: ItemRef) { ref.child == 0 && ref.grant != 0 && !IsLive(t, ref.grant) }

  /** An item that only a person can have put into an automatic group. */
  predicate IsForeign(t: Tables, channel: int, ref: ItemRef) {
    ref.child != 0 || ref.grant == 0 || (IsLive(t, ref.grant) && !ChannelSync.OwnGrant(t, channel, ref.grant))
  }

  predicate ForeignGroup(t: Tables, channel: int, group: int) {
    exists id :: id in t.items && t.items[id].ref.group == group && IsForeign(t, channel, t.items[id].ref)
  }

  predicate KeepsLiveItem(t: Tables, channel: int, group: int) {
    exists id :: id in t.items && t.items[id].ref.group == group
      && ChannelSync.OwnGrant(t, channel, t.items[id].ref.grant)
  }

  /** A group whose name matches the channel's pattern and that no one else has touched. */
  predicate Prunable(t: Tables, channel: int, candidate: string -> bool, group: int) {
    group in t.groups && candidate(t.groups[group].name) && !ForeignGroup(t, channel, group)
  }

  /** Pruning does nothing at all unless some candidate has an item. */
  predicate SomeItem(t: Tables, candidate: string -> bool) {
    exists id :: id in t.items && t.items[id].ref.group in t.groups && candidate(t.groups[t.items[id].ref.group].name)
  }

  predicate ItemGoes(t: Tables, channel: int, candidate: string -> bool, id: int) {
    id in t.items && Prunable(t, channel, candidate, t.items[id].ref.group) && Stale(t, t.items[id].ref)
  }

  predicate GroupGoes(t: Tables, channel: int, candidate: string -> bool, group: int) {
    Prunable(t, channel, candidate, group) && !KeepsLiveItem(t, channel, group)
  }

  function Pruned(t: Tables, channel: int, candidate: string -> bool): Tables {
    if !SomeItem(t, candidate) then t
    else
      t.(groups := map g | g in t.groups && !GroupGoes(t, channel, candidate, g) :: t.groups[g],
         items := map id | id in t.items && !ItemGoes(t, channel, candidate, id) :: t.items[id])
  }

  lemma OneOfThree(t: Tables, channel: int, ref: ItemRef)
    ensures IsForeign(t, channel, ref) || Stale(t, ref) || ChannelSync.OwnGrant(t, channel, ref.grant)
  {
  }

  /** What becomes of a group once some candidate has an item. One that nobody else touched stays exactly
      when it keeps a live item of the channel, and then has an item left: an empty one goes. One with a
      child-group item or another channel's grant loses nothing, nor does one whose name does not match. */
  ghost predicate FateOf(t: Tables, u: Tables, channel: int, candidate: string -> bool, group: int) {
    group in t.groups ==>
      if Prunable(t, channel, candidate, group) then
        && (group in u.groups <==> KeepsLiveItem(t, channel, group))
        && (group in u.groups <==> exists id :: id in u.items && u.items[id].ref.group == group)
      else
        && group in u.groups && u.groups[group] == t.groups[group]
        && forall id :: id in t.items && t.items[id].ref.group == group ==> id in u.items && u.items[id] == t.items[id]
  }

  lemma PrunedFate(t: Tables, channel: int, candidate: string -> bool, group: int)
    requires SomeItem(t, candidate)
    ensures FateOf(t, Pruned(t, channel, candidate), channel, candidate, group)
  {
    var u := Pruned(t, channel, candidate);
    if Prunable(t, channel, candidate, group) {
      if KeepsLiveItem(t, channel, group) {
        var id :| id in t.items && t.items[id].ref.group == group
          && ChannelSync.OwnGrant(t, channel, t.items[id].ref.grant);
        assert id in u.items && u.items[id].ref.group == group;
      } else {
        forall id | id in u.items ensures u.items[id].ref.group != group {
          OneOfThree(t, channel, t.items[id].ref);
        }
      }
    }
  }

  lemma ForeignStays(t: Tables, channel: int, candidate: string -> bool, group: int)
    ensures ForeignGroup(Pruned(t, channel, candidate), channel, group) ==> ForeignGroup(t, channel, group)
    ensures ForeignGroup(t, channel, group) ==> ForeignGroup(Pruned(t, channel, candidate), channel, group)
    ensures KeepsLiveItem(Pruned(t, channel, candidate), channel, group) <==> KeepsLiveItem(t, channel, group)
  {
    var u := Pruned(t, channel, candidate);
    if ForeignGroup(t, channel, group) {
      var id :| id in t.items && t.items[id].ref.group == group && IsForeign(t, channel, t.items[id].ref);
      assert id in u.items && u.items[id] == t.items[id];
    }
    if ForeignGroup(u, channel, group) {
      var id :| id in u.items && u.items[id].ref.group == group && IsForeign(u, channel, u.items[id].ref);
      assert IsForeign(t, channel, t.items[id].ref);
    }
    if KeepsLiveItem(t, channel, group) {
      var id :| id in t.items && t.items[id].ref.group == group
        && ChannelSync.OwnGrant(t, channel, t.items[id].ref.grant);
      assert id in u.items && ChannelSync.OwnGrant(u, channel, u.items[id].ref.grant);
    }
    if KeepsLiveItem(u, channel, group) {
      var id :| id in u.items && u.items[id].ref.group == group
        && ChannelSync.OwnGrant(u, channel, u.items[id].ref.grant);
      assert ChannelSync.OwnGrant(t, channel, t.items[id].ref.grant);
    }
  }

  /** Pruning again finds nothing more to do. */
  lemma PrunedTwice(t: Tables, channel: int, candidate: string -> bool)
    ensures Pruned(Pruned(t, channel, candidate), channel, candidate) == Pruned(t, channel, candidate)
  {
    var u := Pruned(t, channel, candidate);
    if SomeItem(t, candidate) {
      forall g ensures !GroupGoes(u, channel, candidate, g) {
        ForeignStays(t, channel, candidate, g);
      }
      forall id ensures !ItemGoes(u, channel, candidate, id) {
        if id in u.items {
          ForeignStays(t, channel, candidate, u.items[id].ref.group);
        }
      }
      NothingGoes(u, channel, candidate);
    }
  }

  lemma NothingGoes(t: Tables, channel: int, candidate: string -> bool)
    requires forall g :: !GroupGoes(t, channel, candidate, g)
    requires forall id :: !ItemGoes(t, channel, candidate, id)
    ensures Pruned(t, channel, candidate) == t
  {
    var u := Pruned(t, channel, candidate);
    assert u.groups.Keys == t.groups.Keys && u.items.Keys == t.items.Keys;
    forall g | g in u.groups.Keys ensures u.groups[g] == t.groups[g] {
    }
    forall id | id in u.items.Keys ensures u.items[id] == t.items[id] {
    }
    assert u.groups == t.groups && u.items == t.items;
  }

  // ---------- Pruning, row by row ----------

  function ItemsOf(t: Tables, group: int, upTo: int): set<int> {
    set id | id in t.items && id < upTo && t.items[id].ref.group == group
  }

  function StaleAmong(t: Tables, ids: set<int>): set<int> {
    set k | k in ids && k in t.items && Stale(t, t.items[k].ref)
  }

  lemma StaleAmongPlus(t: Tables, ids: set<int>, id: int)
    requires id in t.items
    ensures StaleAmong(t, ids + {id}) ==
      if Stale(t, t.items[id].ref) then StaleAmong(t, ids) + {id} else StaleAmong(t, ids)
  {
  }

  /** The items of a group below `upTo`, none of them foreign. */
  ghost predicate Inspected(t: Tables, channel: int, group: int, upTo: int, stale: set<int>, count: nat) {
    && (forall k :: k in ItemsOf(t, group, upTo) ==> !IsForeign(t, channel, t.items[k].ref))
    && stale == StaleAmong(t, ItemsOf(t, group, upTo))
    && count == |ItemsOf(t, group, upTo)|
  }

  lemma InspectSkip(t: Tables, channel: int, group: int, id: int, stale: set<int>, count: nat)
    requires Inspected(t, channel, group, id, stale, count) && !(id in t.items && t.items[id].ref.group == group)
    ensures Inspected(t, channel, group, id + 1, stale, count)
  {
    assert ItemsOf(t, group, id + 1) == ItemsOf(t, group, id);
  }

  lemma InspectOne(t: Tables, channel: int, group: int, id: int, stale: set<int>, count: nat)
    requires Inspected(t, channel, group, id, stale, count)
    requires id in t.items && t.items[id].ref.group == group && !IsForeign(t, channel, t.items[id].ref)
    ensures Inspected(t, channel, group, id + 1, if Stale(t, t.items[id].ref) then stale + {id} else stale, count + 1)
  {
    var below := ItemsOf(t, group, id);
    assert ItemsOf(t, group, id + 1) == below + {id};
    assert id !in below;
    StaleAmongPlus(t, below, id);
  }

  /** The verdict on one group, from its items: foreign, or the stale ones among them. */
  method Inspect(t: Tables, channel: int, group: int) returns (foreign: bool, stale: set<int>, count: nat)
    requires Below(t.items, t.nextItem)
    ensures foreign <==> ForeignGroup(t, channel, group)
    ensures !foreign ==> stale == set id | id in t.items && t.items[id].ref.group == group && Stale(t, t.items[id].ref)
    ensures !foreign ==> (|stale| == count <==> !KeepsLiveItem(t, channel, group))
  {
    foreign, stale, count := false, {}, 0;
    var id := 0;
    assert ItemsOf(t, group, 0) == {};
    while id < t.nextItem
      invariant 0 <= id && Inspected(t, channel, group, id, stale, count)
    {
      if id !in t.items || t.items[id].ref.group != group {
        InspectSkip(t, channel, group, id, stale, count);
      } else {
        var ref := t.items[id].ref;
        if ref.child != 0 || ref.grant == 0 {
          return true, stale, count;
        }
        if IsLive(t, ref.grant) && t.models[t.grants[ref.grant].ref.model].ref.channel != channel {
          return true, stale, count;
        }
        InspectOne(t, channel, group, id, stale, count);
        if !IsLive(t, ref.grant) {
          stale := stale + {id};
        }
        count := count + 1;
      }
      id := id + 1;
    }
    assert ItemsOf(t, group, id) == set k | k in t.items && t.items[k].ref.group == group;
    AllStaleExactly(t, channel, group, ItemsOf(t, group, id), stale);
  }

  lemma AllStaleExactly(t: Tables, channel: int, group: int, seen: set<int>, stale: set<int>)
    requires seen == set k | k in t.items && t.items[k].ref.group == group
    requires stale == StaleAmong(t, seen)
    requires forall k :: k in seen ==> !IsForeign(t, channel, t.items[k].ref)
    ensures |stale| == |seen| <==> !KeepsLiveItem(t, channel, group)
  {
    var live := seen - stale;
    assert seen == live + stale;
    forall k | k in live ensures KeepsLiveItem(t, channel, group) {
      OneOfThree(t, channel, t.items[k].ref);
    }
    if live == {} {
      forall k | k in t.items && t.items[k].ref.group == group
        ensures !ChannelSync.OwnGrant(t, channel, t.items[k].ref.grant)
      {
        assert k in seen && k in stale;
      }
    } else {
      var k :| k in live;
    }
  }

  /** The tables when the groups below `upTo` were dealt with. */
  ghost predicate PrunedUpTo(t: Tables, u: Tables, channel: int, candidate: string -> bool, upTo: int) {
    && u == t.(groups := u.groups, items := u.items)
    && (forall g :: (g in u.groups <==> g in t.groups && !(g < upTo && GroupGoes(t, channel, candidate, g)))
                    && (g in u.groups ==> u.groups[g] == t.groups[g]))
    && (forall id ::
      (id in u.items <==> id in t.items && !(t.items[id].ref.group < upTo && ItemGoes(t, channel, candidate, id)))
                     && (id in u.items ==> u.items[id] == t.items[id]))
  }

  /** Deletes the stale items of every candidate group nobody else touched, and the groups that keep none. */
  method PruneStaleAutoGroups(t: Tables, channel: int, candidate: string -> bool) returns (u: Tables)
    requires Keyed(t)
    ensures u == Pruned(t, channel, candidate)
    ensures if SomeItem(t, candidate) then forall group :: FateOf(t, u, channel, candidate, group) else u == t
  {
    u := t;
    if !SomeItem(t, candidate) {
      return;
    }
    var g := 0;
    while g < t.nextGroup
      invariant 0 <= g
      invariant PrunedUpTo(t, u, channel, candidate, g)
    {
      if g in t.groups && candidate(t.groups[g].name) {
        var foreign, stale, count := Inspect(t, channel, g);
        if !foreign {
          ghost var before := u;
          u := u.(items := u.items - stale);
          if |stale| == count {
            u := u.(groups := u.groups - {g});
          }
          PruneStep(t, before, u, channel, candidate, g, stale);
        } else {
          PruneSkip(t, u, channel, candidate, g);
        }
      } else {
        PruneSkip(t, u, channel, candidate, g);
      }
      g := g + 1;
    }
    PruneDone(t, u, channel, candidate, g);
    forall group ensures FateOf(t, u, channel, candidate, group) {
      PrunedFate(t, channel, candidate, group);
    }
  }

  lemma PruneStep(t: Tables, before: Tables, u: Tables, channel: int, candidate: string -> bool, g: int,
      stale: set<int>)
    requires PrunedUpTo(t, before, channel, candidate, g) && Prunable(t, channel, candidate, g)
    requires stale == set id | id in t.items && t.items[id].ref.group == g && Stale(t, t.items[id].ref)
    requires u == before.(items := before.items - stale,
                          groups := if KeepsLiveItem(t, channel, g) then before.groups else before.groups - {g})
    ensures PrunedUpTo(t, u, channel, candidate, g + 1)
  {
  }

  lemma PruneSkip(t: Tables, u: Tables, channel: int, candidate: string -> bool, g: int)
    requires PrunedUpTo(t, u, channel, candidate, g) && !Prunable(t, channel, candidate, g)
    ensures PrunedUpTo(t, u, channel, candidate, g + 1)
  {
  }

  lemma PruneDone(t: Tables, u: Tables, channel: int, candidate: string -> bool, g: int)
    requires Keyed(t) && g >= t.nextGroup && SomeItem(t, candidate) && PrunedUpTo(t, u, channel, candidate, g)
    ensures u == Pruned(t, channel, candidate)
  {
    var p := Pruned(t, channel, candidate);
    forall k ensures k in u.groups <==> k in p.groups {
    }
    forall k ensures k in u.items <==> k in p.items {
    }
    assert u.groups.Keys == p.groups.Keys && u.items.Keys == p.items.Keys;
    forall k | k in u.groups.Keys ensures u.groups[k] == p.groups[k] {
    }
    forall k | k in u.items.Keys ensures u.items[k] == p.items[k] {
    }
    assert u.groups == p.groups && u.items == p.items;
  }

  // ---------- What pruning keeps ----------

  /** With the database's foreign keys in force nothing is stale, so only empty groups go. */
  lemma NothingStale(t: Tables, channel: int, candidate: string -> bool)
    requires Intact(t)
    ensures Pruned(t, channel, candidate).items == t.items
    ensures forall g :: GroupGoes(t, channel, candidate, g) ==>
      forall id :: id in t.items ==> t.items[id].ref.group != g
  {
    var u := Pruned(t, channel, candidate);
    forall id | id in t.items ensures !Stale(t, t.items[id].ref) {
      assert ItemSound(t, id) && GrantSound(t, t.items[id].ref.grant);
    }
    assert u.items.Keys == t.items.Keys;
    forall id | id in u.items.Keys ensures u.items[id] == t.items[id] {
    }
    assert u.items == t.items;
    forall g, id | GroupGoes(t, channel, candidate, g) && id in t.items ensures t.items[id].ref.group != g {
      OneOfThree(t, channel, t.items[id].ref);
    }
  }

  /** Nothing but groups is lost, and no group that has items. */
  ghost predicate FewerGroups(t: Tables, u: Tables) {
    && u == t.(groups := u.groups)
    && (forall g :: g in u.groups ==> g in t.groups && u.groups[g] == t.groups[g])
    && (forall id :: id in t.items && t.items[id].ref.group in t.groups ==> t.items[id].ref.group in u.groups)
  }

  lemma FewerGroupsKeyed(t: Tables, u: Tables)
    requires FewerGroups(t, u) && Keyed(t)
    ensures Keyed(u)
  {
    forall id ensures GrantSound(u, id) {
      assert GrantSound(t, id);
    }
  }

  lemma FewerGroupsItems(t: Tables, u: Tables, id: int)
    requires FewerGroups(t, u) && ItemSound(t, id)
    ensures ItemSound(u, id)
  {
  }

  lemma FewerGroupsActive(t: Tables, u: Tables, g: int)
    requires FewerGroups(t, u) && ActiveSound(t, g)
    ensures ActiveSound(u, g)
  {
  }

  lemma FewerGroupsIntact(t: Tables, u: Tables)
    requires FewerGroups(t, u) && Intact(t)
    ensures Intact(u)
  {
    FewerGroupsKeyed(t, u);
    forall id ensures ItemSound(u, id) {
      FewerGroupsItems(t, u, id);
    }
    forall g ensures ActiveSound(u, g) {
      FewerGroupsActive(t, u, g);
    }
  }

  lemma PrunedIntact(t: Tables, channel: int, candidate: string -> bool)
    requires Intact(t)
    ensures Intact(Pruned(t, channel, candidate)) && Pruned(t, channel, candidate).items == t.items
  {
    NothingStale(t, channel, candidate);
    FewerGroupsIntact(t, Pruned(t, channel, candidate));
  }

  predicate RefersToGone(t: Tables, channel: int, candidate: string -> bool, id: int) {
    id in t.items && t.items[id].ref.child != 0 && GroupGoes(t, channel, candidate, t.items[id].ref.child)
  }

  /** Pruning leaves a reference to a group that is gone exactly when another group has one of the
      emptied groups as a child: nothing looks for such references before the group is deleted. */
  lemma ChildrenExistExactly(t: Tables, channel: int, candidate: string -> bool)
    requires Intact(t) && ChildrenExist(t)
    ensures ChildrenExist(Pruned(t, channel, candidate)) <==>
      !SomeItem(t, candidate) || forall id :: !RefersToGone(t, channel, candidate, id)
  {
    var u := Pruned(t, channel, candidate);
    PrunedIntact(t, channel, candidate);
    if SomeItem(t, candidate) {
      forall id ensures ChildSound(u, id) <==> !RefersToGone(t, channel, candidate, id) {
        assert ChildSound(t, id);
      }
    }
  }

  /** Two groups of matching names: 1 is empty, and 2, put together by hand, has it as a child. */
  function Emptied(empty: string, mine: string): Tables {
    EMPTY.(groups := map[1 := Group(empty, 0), 2 := Group(mine, 0)],
           items := map[1 := Row(ItemRef(2, 0, 1), Place(1, ""))],
           nextGroup := 3, nextItem := 2)
  }

  lemma EmptiedAcyclic(empty: string, mine: string)
    ensures AcyclicGroups(Emptied(empty, mine))
  {
    var items := Emptied(empty, mine).items;
    var g := GraphOf(items, 2);
    forall x, c ensures c in GroupNesting.Edges(g, x) ==> x == 2 && c == 1 {
      EdgesExactly(items, 2, x, c);
    }
    forall p | GroupNesting.IsWalk(g, p) && |p| > 1 ensures p[0] != p[|p| - 1] {
      var n := |p| - 2;
      var x, c := p[n], p[n + 1];
      assert c in GroupNesting.Edges(g, x);
      FirstStep(g, p);
    }
  }

  /** The empty group goes although the other still refers to it. */
  lemma PruneLeavesDangling(channel: int, candidate: string -> bool, empty: string, mine: string)
    requires candidate(empty) && candidate(mine) && empty != mine
    ensures Intact(Emptied(empty, mine)) && ChildrenExist(Emptied(empty, mine))
    ensures !ChildrenExist(Pruned(Emptied(empty, mine), channel, candidate))
  {
    var t := Emptied(empty, mine);
    EmptiedAcyclic(empty, mine);
    forall id ensures GrantSound(t, id) && ItemSound(t, id) && ChildSound(t, id) && ActiveSound(t, id) {
    }
    assert t.items[1].ref.group == 2;
    assert RefersToGone(t, channel, candidate, 1);
    ChildrenExistExactly(t, channel, candidate);
  }

  lemma CompleteAfterPrune(t: Tables, channel: int, candidate: string -> bool, name: string, model: int)
    requires model in t.models && t.models[model].ref.channel == channel && HasGrants(t, model)
    requires Complete(t, name, model)
    ensures Complete(Pruned(t, channel, candidate), name, model)
  {
    var u := Pruned(t, channel, candidate);
    var g :| CompleteIn(t, g, name, model);
    forall grant | IsGrantOf(t.grants, model, grant) ensures HasItem(u, g, grant) && KeepsLiveItem(t, channel, g) {
      assert HasItem(t, g, grant);
      var id :| id in t.items && t.items[id].ref == ItemRef(g, grant, 0);
      assert ChannelSync.OwnGrant(t, channel, t.items[id].ref.grant);
      assert id in u.items && u.items[id].ref == ItemRef(g, grant, 0);
    }
    var grant :| IsGrantOf(t.grants, model, grant);
    assert KeepsLiveItem(t, channel, g);
    assert CompleteIn(u, g, name, model);
  }

  lemma AllCompleteAfterPrune(t: Tables, channel: int, candidate: string -> bool, prefix: string, names: seq<string>)
    requires AllComplete(t, channel, prefix, names)
    ensures AllComplete(Pruned(t, channel, candidate), channel, prefix, names)
  {
    var u := Pruned(t, channel, candidate);
    forall i | 0 <= i < |names| ensures NameComplete(u, channel, prefix, names[i]) {
      assert NameComplete(t, channel, prefix, names[i]);
      forall m | m in u.models && u.models[m].ref == Named(channel, names[i]) && HasGrants(u, m)
        ensures Complete(u, prefix + names[i], m)
      {
        assert HasGrants(t, m);
        CompleteAfterPrune(t, channel, candidate, prefix + names[i], m);
      }
    }
  }

  ghost predicate NamesOf(modelNames: seq<string>, models: seq<string>) {
    forall name :: name in models <==> IsSubmitted(modelNames, name)
  }

  /** Filling in and pruning are both done: another run changes nothing. */
  ghost predicate AtRest(t: Tables, channel: int, prefix: string, modelNames: seq<string>, candidate: string -> bool) {
    && (forall name :: IsSubmitted(modelNames, name) ==> NameComplete(t, channel, prefix, name))
    && Pruned(t, channel, candidate) == t
  }

  ghost predicate FilledThenPruned(t: Tables, u: Tables, channel: int, prefix: string, modelNames: seq<string>,
      candidate: string -> bool) {
    exists mid, models :: NamesOf(modelNames, models) && Ensured(t, mid, channel, prefix, models)
      && u == Pruned(mid, channel, candidate)
  }

  lemma SubmittedExactly(t: Tables, channel: int, prefix: string, modelNames: seq<string>, models: seq<string>)
    requires NamesOf(modelNames, models)
    ensures AllComplete(t, channel, prefix, models) <==>
      forall name :: IsSubmitted(modelNames, name) ==> NameComplete(t, channel, prefix, name)
  {
    if AllComplete(t, channel, prefix, models) {
      forall name | IsSubmitted(modelNames, name) ensures NameComplete(t, channel, prefix, name) {
        assert name in models;
      }
    }
  }

  /** What follows every write to a channel. A second run is the identity: the first ends at rest, and
      at rest nothing changes. Nothing is pruned when no model is submitted. */
  method EnsureAutoGroups(t: Tables, channel: int, channelName: string, modelNames: seq<string>,
      candidate: string -> bool) returns (ok: bool, u: Tables)
    requires Intact(t)
    ensures Intact(u)
    ensures ok <==> Text.TrimSpace(channelName) != ""
    ensures !ok || (forall name :: !IsSubmitted(modelNames, name)) ==> u == t
    ensures ok && (exists name :: IsSubmitted(modelNames, name)) ==>
      var prefix := Text.TrimSpace(channelName) + "/";
      && FilledThenPruned(t, u, channel, prefix, modelNames, candidate)
      && AtRest(u, channel, prefix, modelNames, candidate)
      && (AtRest(t, channel, prefix, modelNames, candidate) ==> u == t)
  {
    u := t;
    var name := Text.TrimSpace(channelName);
    if name == "" {
      return false, t;
    }
    var models := CleanNames(modelNames);
    if models == [] {
      return true, t;
    }
    assert IsSubmitted(modelNames, models[0]) by {
      assert models[0] in models;
    }
    var mid := EnsureModels(t, channel, name + "/", models);
    u := PruneStaleAutoGroups(mid, channel, candidate);
    PrunedIntact(mid, channel, candidate);
    AllCompleteAfterPrune(mid, channel, candidate, name + "/", models);
    PrunedTwice(mid, channel, candidate);
    SubmittedExactly(u, channel, name + "/", modelNames, models);
    SubmittedExactly(t, channel, name + "/", modelNames, models);
    ok := true;
  }
}
