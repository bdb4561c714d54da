/** Child groups across a whole write to a channel. Pruning deletes emptied automatic groups without a
    look at the groups that have them as a child; this says, from the tables before the write and the
    submission alone, when a reference is left dangling. */
module ChildGroups {
  import opened Common
  import opened Reconcile
  import opened Database
  import opened ChannelSync
  import opened AutoGroups
  import Text

  // ---------- What can be told before the write ----------

  /** An item that the write leaves alone: one of no grant of the channel, or of a grant whose model and key
      are submitted together. */
  predicate ItemStays(t: Tables, channel: int, inputs: seq<GrantInput>, id: int) {
    && id in t.items
    && (OwnGrant(t, channel, t.items[id].ref.grant) && t.grants[t.items[id].ref.grant].ref.key in t.keys ==>
          var ref := t.grants[t.items[id].ref.grant].ref;
          PairSubmitted(inputs, t.models[ref.model].ref.name, t.keys[ref.key].ref.name))
  }

  /** The automatic group of a submitted grant's model. */
  predicate IsFilled(prefix: string, inputs: seq<GrantInput>, name: string) {
    exists i :: 0 <= i < |inputs| && name == prefix + inputs[i].modelName
  }

  /** A group that has items after the write: one of its own stays, or it is filled. */
  predicate StaysFilled(t: Tables, channel: int, prefix: string, inputs: seq<GrantInput>, group: int) {
    && group in t.groups
    && ((exists id :: id in t.items && ItemStays(t, channel, inputs, id) && t.items[id].ref.group == group)
        || IsFilled(prefix, inputs, t.groups[group].name))
  }

  /** Pruning does nothing at all unless some group with a name of the pattern has items. */
  predicate PruneStarts(t: Tables, channel: int, prefix: string, inputs: seq<GrantInput>, candidate: string -> bool) {
    || (exists g :: g in t.groups && candidate(t.groups[g].name) && StaysFilled(t, channel, prefix, inputs, g))
    || (exists i :: 0 <= i < |inputs| && candidate(prefix + inputs[i].modelName))
  }

  /** An item whose child group has a name of the pattern and is left without items. */
  predicate LosesChild(t: Tables, channel: int, prefix: string, inputs: seq<GrantInput>, candidate: string -> bool,
      id: int) {
    && id in t.items && t.items[id].ref.child != 0 && t.items[id].ref.child in t.groups
    && candidate(t.groups[t.items[id].ref.child].name)
    && !StaysFilled(t, channel, prefix, inputs, t.items[id].ref.child)
  }

  ghost predicate ChildrenSpared(t: Tables, channel: int, prefix: string, inputs: seq<GrantInput>,
      candidate: string -> bool) {
    PruneStarts(t, channel, prefix, inputs, candidate) ==>
      forall id :: !LosesChild(t, channel, prefix, inputs, candidate, id)
  }

  // ---------- Emptied groups go ----------

  predicate HasItems(t: Tables, group: int) { exists id :: id in t.items && t.items[id].ref.group == group }

  lemma GoesExactlyWhenEmpty(t: Tables, channel: int, candidate: string -> bool, group: int)
    requires Intact(t)
    ensures GroupGoes(t, channel, candidate, group) <==>
      group in t.groups && candidate(t.groups[group].name) && !HasItems(t, group)
  {
    NothingStale(t, channel, candidate);
    if id :| id in t.items && t.items[id].ref.group == group {
      OneOfThree(t, channel, t.items[id].ref);
    }
  }

  // ---------- Which groups have items ----------

  /** A write to a channel: up to `v` its rows are written and items go with their grants, up to `mid` the
      automatic groups of the submitted models are filled. */
  ghost predicate WrittenAndFilled(t: Tables, v: Tables, mid: Tables, channel: int, prefix: string, detail: Detail,
      models: seq<string>) {
    && Intact(t) && Intact(v) && Followed(t, v) && ChildrenWritten(t, v, channel, detail)
    && Ensured(v, mid, channel, prefix, models)
    && forall i :: 0 <= i < |detail.grants| ==> detail.grants[i].modelName in models
  }

  lemma StaysExactly(t: Tables, v: Tables, channel: int, detail: Detail, id: int)
    requires Intact(t) && Intact(v) && Followed(t, v) && ChildrenWritten(t, v, channel, detail)
    ensures id in v.items <==> ItemStays(t, channel, detail.grants, id)
  {
    assert ItemFollows(t, v, id) && ItemSound(t, id);
    if id in t.items {
      var grant := t.items[id].ref.grant;
      assert GrantKept(t, v, channel, detail.grants, grant) && GrantSound(t, grant);
      assert 0 !in t.grants;
      if grant != 0 && !OwnGrant(t, channel, grant) {
        assert InOther(t, channel, grant);
      }
    }
  }

  /** A new item is in the automatic group of a submitted grant's model. */
  lemma NewItemIsFilled(v: Tables, mid: Tables, channel: int, prefix: string, detail: Detail, models: seq<string>,
      id: int)
    requires Intact(v) && Holds(v, channel, detail) && Ensured(v, mid, channel, prefix, models)
    requires id in mid.items && id !in v.items
    ensures mid.items[id].ref.group in mid.groups
    ensures IsFilled(prefix, detail.grants, mid.groups[mid.items[id].ref.group].name)
  {
    assert ItemAdded(v, mid, channel, prefix, models, id);
    var i :| 0 <= i < |models| && ItemFor(v, mid, channel, prefix, models[i], id);
    var grant := mid.items[id].ref.grant;
    assert GrantSound(v, grant);
    var g := GrantInput(models[i], v.keys[v.grants[grant].ref.key].ref.name, v.grants[grant].value);
    assert ResolvesTo(v, channel, g, v.grants[grant]);
    assert HasGrant(v, channel, g.modelName, g.keyName, g.protocols);
    assert g in detail.grants;
  }

  /** The automatic group of a submitted grant's model is there, and has items. */
  lemma FilledHasItems(v: Tables, mid: Tables, channel: int, prefix: string, detail: Detail, models: seq<string>,
      i: nat) returns (g: int)
    requires Intact(v) && Holds(v, channel, detail) && Ensured(v, mid, channel, prefix, models)
    requires i < |detail.grants| && detail.grants[i].modelName in models
    ensures g in mid.groups && mid.groups[g].name == prefix + detail.grants[i].modelName && HasItems(mid, g)
  {
    var input := detail.grants[i];
    assert HasGrant(v, channel, input.modelName, input.keyName, input.protocols);
    var grant :| grant in v.grants && ResolvesTo(v, channel, input, v.grants[grant]);
    var m := v.grants[grant].ref.model;
    var k :| 0 <= k < |models| && models[k] == input.modelName;
    assert NameComplete(mid, channel, prefix, models[k]);
    assert IsGrantOf(mid.grants, m, grant);
    assert Complete(mid, prefix + models[k], m);
    g :| CompleteIn(mid, g, prefix + models[k], m);
    assert HasItem(mid, g, grant);
  }

  /** A group keeps its name. */
  lemma GroupThere(t: Tables, v: Tables, mid: Tables, group: int)
    requires Followed(t, v) && Grown(v, mid) && group in t.groups
    ensures group in v.groups && group in mid.groups && mid.groups[group].name == t.groups[group].name
  {
    assert ChoiceFollows(t, v, group) && GroupGrown(v, mid, group);
  }

  lemma ItemMeansFilled(t: Tables, v: Tables, mid: Tables, channel: int, prefix: string, detail: Detail,
      models: seq<string>, id: int)
    requires WrittenAndFilled(t, v, mid, channel, prefix, detail, models)
    requires id in mid.items && mid.items[id].ref.group in t.groups
    ensures StaysFilled(t, channel, prefix, detail.grants, mid.items[id].ref.group)
  {
    GroupThere(t, v, mid, mid.items[id].ref.group);
    StaysExactly(t, v, channel, detail, id);
    assert ItemFollows(t, v, id) && ItemGrown(v, mid, id);
    if id !in v.items {
      NewItemIsFilled(v, mid, channel, prefix, detail, models, id);
    }
  }

  lemma FilledMeansItem(t: Tables, v: Tables, mid: Tables, channel: int, prefix: string, detail: Detail,
      models: seq<string>, group: int)
    requires WrittenAndFilled(t, v, mid, channel, prefix, detail, models)
    requires StaysFilled(t, channel, prefix, detail.grants, group)
    ensures HasItems(mid, group)
  {
    GroupThere(t, v, mid, group);
    if IsFilled(prefix, detail.grants, t.groups[group].name) {
      var i :| 0 <= i < |detail.grants| && t.groups[group].name == prefix + detail.grants[i].modelName;
      var g := FilledHasItems(v, mid, channel, prefix, detail, models, i);
      assert g == group;
    } else {
      var id :| id in t.items && ItemStays(t, channel, detail.grants, id) && t.items[id].ref.group == group;
      StaysExactly(t, v, channel, detail, id);
      assert ItemFollows(t, v, id) && ItemGrown(v, mid, id);
      assert id in mid.items && mid.items[id].ref.group == group;
    }
  }

  lemma HasItemsExactly(t: Tables, v: Tables, mid: Tables, channel: int, prefix: string, detail: Detail,
      models: seq<string>, group: int)
    requires WrittenAndFilled(t, v, mid, channel, prefix, detail, models) && group in t.groups
    ensures HasItems(mid, group) <==> StaysFilled(t, channel, prefix, detail.grants, group)
  {
    if id :| id in mid.items && mid.items[id].ref.group == group {
      ItemMeansFilled(t, v, mid, channel, prefix, detail, models, id);
    }
    if StaysFilled(t, channel, prefix, detail.grants, group) {
      FilledMeansItem(t, v, mid, channel, prefix, detail, models, group);
    }
  }

  lemma ItemMeansStart(t: Tables, v: Tables, mid: Tables, channel: int, prefix: string, detail: Detail,
      models: seq<string>, candidate: string -> bool, id: int)
    requires WrittenAndFilled(t, v, mid, channel, prefix, detail, models)
    requires id in mid.items && mid.items[id].ref.group in mid.groups
    requires candidate(mid.groups[mid.items[id].ref.group].name)
    ensures PruneStarts(t, channel, prefix, detail.grants, candidate)
  {
    var g := mid.items[id].ref.group;
    if g in t.groups {
      GroupThere(t, v, mid, g);
      ItemMeansFilled(t, v, mid, channel, prefix, detail, models, id);
    } else {
      assert ItemSound(v, id) && ItemGrown(v, mid, id);
      NewItemIsFilled(v, mid, channel, prefix, detail, models, id);
    }
  }

  lemma ItemsMeanSome(mid: Tables, candidate: string -> bool, group: int)
    requires group in mid.groups && candidate(mid.groups[group].name) && HasItems(mid, group)
    ensures SomeItem(mid, candidate)
  {
    var id :| id in mid.items && mid.items[id].ref.group == group;
  }

  lemma StartsExactly(t: Tables, v: Tables, mid: Tables, channel: int, prefix: string, detail: Detail,
      models: seq<string>, candidate: string -> bool)
    requires WrittenAndFilled(t, v, mid, channel, prefix, detail, models)
    ensures SomeItem(mid, candidate) <==> PruneStarts(t, channel, prefix, detail.grants, candidate)
  {
    if id :|
      id in mid.items && mid.items[id].ref.group in mid.groups
      && candidate(mid.groups[mid.items[id].ref.group].name)
    {
      ItemMeansStart(t, v, mid, channel, prefix, detail, models, candidate, id);
    }
    if g :| g in t.groups && candidate(t.groups[g].name) && StaysFilled(t, channel, prefix, detail.grants, g) {
      GroupThere(t, v, mid, g);
      FilledMeansItem(t, v, mid, channel, prefix, detail, models, g);
      ItemsMeanSome(mid, candidate, g);
    }
    if i :| 0 <= i < |detail.grants| && candidate(prefix + detail.grants[i].modelName) {
      var g := FilledHasItems(v, mid, channel, prefix, detail, models, i);
      ItemsMeanSome(mid, candidate, g);
    }
  }

  lemma LosesExactly(t: Tables, v: Tables, mid: Tables, channel: int, prefix: string, detail: Detail,
      models: seq<string>, candidate: string -> bool, id: int)
    requires WrittenAndFilled(t, v, mid, channel, prefix, detail, models) && ChildrenExist(t)
    ensures RefersToGone(mid, channel, candidate, id) <==> LosesChild(t, channel, prefix, detail.grants, candidate, id)
  {
    assert ItemFollows(t, v, id) && ItemGrown(v, mid, id) && ItemSound(t, id) && ChildSound(t, id);
    if id in t.items && t.items[id].ref.child != 0 {
      var c := t.items[id].ref.child;
      GroupThere(t, v, mid, c);
      HasItemsExactly(t, v, mid, channel, prefix, detail, models, c);
      GoesExactlyWhenEmpty(mid, channel, candidate, c);
    }
  }

  // ---------- Items and groups after the whole write ----------

  /** Model names are written without spaces around, and none is empty. */
  ghost predicate NamesTrimmed(detail: Detail) {
    forall i :: 0 <= i < |detail.models| ==>
      detail.models[i] != "" && Text.TrimSpace(detail.models[i]) == detail.models[i]
  }

  /** An item stays, as it is, exactly when its grant does; a new one is a grant item of a filled group. */
  ghost predicate ItemOutcome(t: Tables, u: Tables, channel: int, prefix: string, inputs: seq<GrantInput>, id: int) {
    && (id in t.items ==> (id in u.items <==> ItemStays(t, channel, inputs, id)))
    && (id in t.items && id in u.items ==> u.items[id] == t.items[id])
    && (id in u.items && id !in t.items ==>
          && u.items[id].ref.child == 0 && u.items[id].ref.group in u.groups
          && IsFilled(prefix, inputs, u.groups[u.items[id].ref.group].name))
  }

  /** A group goes exactly when models were submitted, pruning starts, its name is of the pattern and it is
      left without items; one that stays loses its choice with the item and nothing else; a new one has
      the automatic name of a submitted model and no choice. */
  ghost predicate GroupOutcome(t: Tables, u: Tables, channel: int, prefix: string, detail: Detail,
      candidate: string -> bool, g: int) {
    && (g in t.groups ==>
          (g in u.groups <==>
             detail.models == [] || !PruneStarts(t, channel, prefix, detail.grants, candidate)
             || !candidate(t.groups[g].name) || StaysFilled(t, channel, prefix, detail.grants, g)))
    && (g in t.groups && g in u.groups ==>
          u.groups[g] == if t.groups[g].active in u.items then t.groups[g] else t.groups[g].(active := 0))
    && (g in u.groups && g !in t.groups ==>
          u.groups[g].active == 0
          && exists i :: 0 <= i < |detail.models| && u.groups[g].name == prefix + detail.models[i])
  }

  ghost predicate Outcome(t: Tables, u: Tables, channel: int, prefix: string, detail: Detail,
      candidate: string -> bool) {
    && (forall id :: ItemOutcome(t, u, channel, prefix, detail.grants, id))
    && (forall g :: GroupOutcome(t, u, channel, prefix, detail, candidate, g))
  }

  lemma ChoiceStays(t: Tables, v: Tables, u: Tables, g: int)
    requires Intact(t) && Followed(t, v) && g in t.groups && g in v.groups && g in u.groups
    requires u.groups[g] == v.groups[g]
    requires forall id :: id in t.items ==> (id in u.items <==> id in v.items)
    requires 0 !in u.items
    ensures u.groups[g] == if t.groups[g].active in u.items then t.groups[g] else t.groups[g].(active := 0)
  {
    assert ChoiceFollows(t, v, g) && ActiveSound(t, g);
  }

  lemma OutcomeUnfilled(t: Tables, v: Tables, channel: int, prefix: string, detail: Detail, candidate: string -> bool)
    requires Intact(t) && Intact(v) && Followed(t, v) && ChildrenWritten(t, v, channel, detail) && detail.models == []
    ensures Outcome(t, v, channel, prefix, detail, candidate)
  {
    forall id ensures ItemOutcome(t, v, channel, prefix, detail.grants, id) {
      StaysExactly(t, v, channel, detail, id);
      assert ItemFollows(t, v, id);
    }
    forall g ensures GroupOutcome(t, v, channel, prefix, detail, candidate, g) {
      if g in t.groups {
        ChoiceStays(t, v, v, g);
      }
    }
  }

  lemma ItemOutcomeFilled(t: Tables, v: Tables, mid: Tables, channel: int, prefix: string, detail: Detail,
      models: seq<string>, candidate: string -> bool, id: int)
    requires WrittenAndFilled(t, v, mid, channel, prefix, detail, models)
    ensures ItemOutcome(t, Pruned(mid, channel, candidate), channel, prefix, detail.grants, id)
    ensures id in t.items ==> (id in Pruned(mid, channel, candidate).items <==> id in v.items)
  {
    PrunedIntact(mid, channel, candidate);
    StaysExactly(t, v, channel, detail, id);
    assert ItemFollows(t, v, id) && ItemGrown(v, mid, id);
    if id in mid.items && id !in v.items {
      NewItemIsFilled(v, mid, channel, prefix, detail, models, id);
      NewItemsGroupStays(mid, channel, candidate, id);
    }
  }

  /** A group that has an item is not pruned. */
  lemma NewItemsGroupStays(mid: Tables, channel: int, candidate: string -> bool, id: int)
    requires Intact(mid) && id in mid.items && mid.items[id].ref.group in mid.groups
    ensures var g := mid.items[id].ref.group;
      g in Pruned(mid, channel, candidate).groups && Pruned(mid, channel, candidate).groups[g] == mid.groups[g]
  {
    GoesExactlyWhenEmpty(mid, channel, candidate, mid.items[id].ref.group);
  }

  lemma GroupOutcomeFilled(t: Tables, v: Tables, mid: Tables, channel: int, prefix: string, detail: Detail,
      models: seq<string>, candidate: string -> bool, g: int)
    requires WrittenAndFilled(t, v, mid, channel, prefix, detail, models) && detail.models != []
    requires forall id :: id in t.items ==> (id in Pruned(mid, channel, candidate).items <==> id in v.items)
    requires NamesOf(detail.models, models)
    requires NamesTrimmed(detail)
    ensures GroupOutcome(t, Pruned(mid, channel, candidate), channel, prefix, detail, candidate, g)
  {
    var u := Pruned(mid, channel, candidate);
    if g in u.groups && g !in t.groups {
      NewGroupIsSubmitted(v, mid, channel, prefix, detail, models, g);
    }
    if g in t.groups {
      GroupThere(t, v, mid, g);
      StartsExactly(t, v, mid, channel, prefix, detail, models, candidate);
      HasItemsExactly(t, v, mid, channel, prefix, detail, models, g);
      GoesExactlyWhenEmpty(mid, channel, candidate, g);
      if g in u.groups {
        PrunedIntact(mid, channel, candidate);
        assert GroupGrown(v, mid, g);
        ChoiceStays(t, v, u, g);
      }
    }
  }

  lemma NewGroupIsSubmitted(v: Tables, mid: Tables, channel: int, prefix: string, detail: Detail, models: seq<string>,
      g: int)
    requires Ensured(v, mid, channel, prefix, models) && NamesOf(detail.models, models)
    requires NamesTrimmed(detail)
    requires g in mid.groups && g !in v.groups
    ensures mid.groups[g].active == 0
    ensures exists i :: 0 <= i < |detail.models| && mid.groups[g].name == prefix + detail.models[i]
  {
    assert GroupGrown(v, mid, g) && GroupAdded(v, mid, prefix, models, g);
    var i :| 0 <= i < |models| && mid.groups[g].name == prefix + models[i];
    assert IsSubmitted(detail.models, models[i]);
  }

  lemma OutcomeFilled(t: Tables, v: Tables, u: Tables, channel: int, prefix: string, detail: Detail,
      candidate: string -> bool)
    requires Intact(t) && Intact(v) && Followed(t, v) && ChildrenWritten(t, v, channel, detail) && Acceptable(detail)
    requires detail.models != []
    requires NamesTrimmed(detail)
    requires FilledThenPruned(v, u, channel, prefix, detail.models, candidate)
    ensures Outcome(t, u, channel, prefix, detail, candidate)
  {
    var mid, models :| NamesOf(detail.models, models) && Ensured(v, mid, channel, prefix, models)
      && u == Pruned(mid, channel, candidate);
    GrantsNameModels(detail, models);
    forall id
      ensures ItemOutcome(t, u, channel, prefix, detail.grants, id)
      ensures id in t.items ==> (id in u.items <==> id in v.items)
    {
      ItemOutcomeFilled(t, v, mid, channel, prefix, detail, models, candidate, id);
    }
    forall g ensures GroupOutcome(t, u, channel, prefix, detail, candidate, g) {
      GroupOutcomeFilled(t, v, mid, channel, prefix, detail, models, candidate, g);
    }
  }

  /** References to child groups are those that were there: the bound on their depth stays. */
  lemma OutcomeBounded(t: Tables, u: Tables, channel: int, prefix: string, detail: Detail, candidate: string -> bool)
    requires Intact(t) && Intact(u) && Outcome(t, u, channel, prefix, detail, candidate)
    ensures DepthBounded(t) ==> DepthBounded(u)
  {
    forall id ensures ReferenceKept(t, u, id) {
      assert ItemOutcome(t, u, channel, prefix, detail.grants, id);
    }
    FewerReferencesBounded(t, u);
  }

  // ---------- The whole write ----------

  lemma SparedWhenFilled(t: Tables, v: Tables, mid: Tables, channel: int, prefix: string, detail: Detail,
      models: seq<string>, candidate: string -> bool)
    requires WrittenAndFilled(t, v, mid, channel, prefix, detail, models) && ChildrenExist(t)
    ensures ChildrenExist(Pruned(mid, channel, candidate)) <==>
      ChildrenSpared(t, channel, prefix, detail.grants, candidate)
  {
    FollowedChildren(t, v);
    ChildrenExistExactly(mid, channel, candidate);
    StartsExactly(t, v, mid, channel, prefix, detail, models, candidate);
    forall id
      ensures RefersToGone(mid, channel, candidate, id) <==>
        LosesChild(t, channel, prefix, detail.grants, candidate, id)
    {
      LosesExactly(t, v, mid, channel, prefix, detail, models, candidate, id);
    }
  }

  /** Submitted names as they are cleaned up cover the submitted grants. */
  lemma GrantsNameModels(detail: Detail, models: seq<string>)
    requires Acceptable(detail) && NamesOf(detail.models, models)
    requires NamesTrimmed(detail)
    ensures forall i :: 0 <= i < |detail.grants| ==> detail.grants[i].modelName in models
  {
    forall i | 0 <= i < |detail.grants| ensures detail.grants[i].modelName in models {
      assert NamesSubmitted(detail, detail.grants[i]);
      assert IsSubmitted(detail.models, detail.grants[i].modelName);
    }
  }

  /** Where every child group existed before a write that submits models, every one still does exactly when
      no child group of the pattern is left without items, or there is nothing to prune for. */
  lemma SparedExactly(t: Tables, v: Tables, u: Tables, channel: int, prefix: string, detail: Detail,
      candidate: string -> bool)
    requires Intact(t) && Intact(v) && Followed(t, v) && ChildrenWritten(t, v, channel, detail) && Acceptable(detail)
    requires ChildrenExist(t)
    requires NamesTrimmed(detail)
    requires FilledThenPruned(v, u, channel, prefix, detail.models, candidate)
    ensures ChildrenExist(u) <==> ChildrenSpared(t, channel, prefix, detail.grants, candidate)
  {
    var mid, models :| NamesOf(detail.models, models) && Ensured(v, mid, channel, prefix, models)
      && u == Pruned(mid, channel, candidate);
    GrantsNameModels(detail, models);
    SparedWhenFilled(t, v, mid, channel, prefix, detail, models, candidate);
  }
}
