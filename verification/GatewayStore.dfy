/** The store of groups and channels: one method per operation, each a transaction that is committed
    or leaves everything as it was. */
module GatewayStore {
  import opened Common
  import opened Reconcile
  import opened Database
  import opened GroupStore
  import opened ChannelSync
  import opened ChannelCache
  import AutoGroups
  import ChildGroups
  import GroupNesting
  import Text

  datatype Op =
    | CreateGroup(name: string, inputs: seq<ItemInput>)
    | UpdateGroup(id: int, newName: Option<string>, items: Option<seq<ItemInput>>, active: Option<int>)
    | DeleteGroup(id: int)
    | CreateChannel(name: string, detail: Detail)
    | UpdateChannel(id: int, name: string, detail: Detail)
    | DeleteChannel(id: int)

  predicate WritesChannel(op: Op) { op.CreateChannel? || op.UpdateChannel? }

  predicate SubmitsItems(op: Op) { op.UpdateGroup? && op.items.Some? }

  // ---------- Submitted channels ----------

  function TrimmedKey(input: KeyInput): KeyInput {
    input.(name := Text.TrimSpace(input.name), secret := Text.TrimSpace(input.secret))
  }

  function TrimmedGrant(input: GrantInput): GrantInput {
    input.(modelName := Text.TrimSpace(input.modelName), keyName := Text.TrimSpace(input.keyName))
  }

  /** `d` is the submission as it is written: without spaces around names and secrets, and otherwise the same. */
  ghost predicate WrittenFor(detail: Detail, d: Detail) {
    && |d.keys| == |detail.keys| && |d.models| == |detail.models| && |d.grants| == |detail.grants|
    && (forall i :: 0 <= i < |d.keys| ==>
          && d.keys[i].name == Text.TrimSpace(detail.keys[i].name)
          && d.keys[i].secret == Text.TrimSpace(detail.keys[i].secret)
          && d.keys[i].enabled == detail.keys[i].enabled && d.keys[i].proxyNode == detail.keys[i].proxyNode)
    && (forall i :: 0 <= i < |d.models| ==> d.models[i] == Text.TrimSpace(detail.models[i]))
    && (forall i :: 0 <= i < |d.grants| ==>
          && d.grants[i].modelName == Text.TrimSpace(detail.grants[i].modelName)
          && d.grants[i].keyName == Text.TrimSpace(detail.grants[i].keyName)
          && d.grants[i].protocols == detail.grants[i].protocols)
  }

  function Trimmed(detail: Detail): (d: Detail)
    ensures WrittenFor(detail, d)
  {
    Detail(
      seq(|detail.keys|, i requires 0 <= i < |detail.keys| => TrimmedKey(detail.keys[i])),
      seq(|detail.models|, i requires 0 <= i < |detail.models| => Text.TrimSpace(detail.models[i])),
      seq(|detail.grants|, i requires 0 <= i < |detail.grants| => TrimmedGrant(detail.grants[i])))
  }

  predicate NamesGiven(detail: Detail) {
    && (forall i :: 0 <= i < |detail.keys| ==> Text.TrimSpace(detail.keys[i].name) != "")
    && (forall i :: 0 <= i < |detail.models| ==> Text.TrimSpace(detail.models[i]) != "")
  }

  predicate ChannelNameFree(t: Tables, name: string, self: int) {
    name != "" && forall c :: c in t.channels && t.channels[c] == name ==> c == self
  }

  /** A channel submission that goes through. */
  ghost predicate CanWrite(t: Tables, self: int, name: string, detail: Detail) {
    ChannelNameFree(t, Text.TrimSpace(name), self) && NamesGiven(detail) && Acceptable(Trimmed(detail))
  }

  /** The tables with the channel's own row written. */
  function WithRow(t: Tables, channel: int, name: string): Tables {
    t.(channels := t.channels[channel := name],
      nextChannel := if channel < t.nextChannel then t.nextChannel else channel + 1)
  }

  lemma ChannelsIntact(t: Tables, u: Tables)
    requires Intact(t) && u == t.(channels := u.channels, nextChannel := u.nextChannel)
    requires t.channels.Keys <= u.channels.Keys && UniqueChannels(u.channels)
    requires 0 < u.nextChannel && forall c :: c in u.channels ==> 0 < c < u.nextChannel
    ensures Intact(u) && (ChildrenExist(t) ==> ChildrenExist(u))
  {
    forall id | ChildSound(t, id) ensures ChildSound(u, id) {
    }
    forall id ensures ItemSound(u, id) {
      assert ItemSound(t, id);
    }
    forall g ensures ActiveSound(u, g) {
      assert ActiveSound(t, g);
    }
    forall id ensures GrantSound(u, id) {
      assert GrantSound(t, id);
    }
  }

  lemma WithRowIntact(t: Tables, channel: int, name: string)
    requires Intact(t) && (channel in t.channels || channel == t.nextChannel) && ChannelNameFree(t, name, channel)
    ensures Intact(WithRow(t, channel, name)) && (ChildrenExist(t) ==> ChildrenExist(WithRow(t, channel, name)))
  {
    ChannelsIntact(t, WithRow(t, channel, name));
  }

  /** A channel write from `t` to `u`. The channel holds what was submitted; keys, models, grants and items
      that are submitted again stay, each under its id; other channels keep everything; groups go only when
      pruning finds them empty. In between, at `v`, items had gone with their grants and choices with
      their items; after that only automatic groups were filled in and pruned. */
  ghost predicate ChannelWritten(t: Tables, u: Tables, channel: int, name: string, detail: Detail,
      candidate: string -> bool) {
    && u.channels == t.channels[channel := name]
    && ChildrenWritten(t, u, channel, Trimmed(detail))
    && ChildGroups.Outcome(t, u, channel, name + "/", Trimmed(detail), candidate)
    && exists v :: Intact(v) && Followed(t, v) && AutomaticOnly(v, u, channel, name, Trimmed(detail).models, candidate)
  }

  /** After a write every child group exists still exactly when no models were submitted, and nothing was
      pruned, or pruning finds no child group without items; all of it can be told before the write. */
  ghost predicate ChildrenExistIfSpared(t: Tables, u: Tables, channel: int, name: string, detail: Detail,
      candidate: string -> bool) {
    ChildrenExist(t) ==>
      (ChildrenExist(u) <==>
         detail.models == [] || ChildGroups.ChildrenSpared(t, channel, name + "/", Trimmed(detail).grants, candidate))
  }

  ghost predicate AutomaticOnly(v: Tables, u: Tables, channel: int, name: string, models: seq<string>,
      candidate: string -> bool) {
    && u == v.(groups := u.groups, items := u.items, nextGroup := u.nextGroup, nextItem := u.nextItem)
    && (models == [] ==> u == v)
    && (models != [] ==>
          && AutoGroups.FilledThenPruned(v, u, channel, name + "/", models, candidate)
          && AutoGroups.AtRest(u, channel, name + "/", models, candidate))
  }

  lemma GroupsAndItemsOnly(v: Tables, u: Tables, channel: int, prefix: string, models: seq<string>,
      candidate: string -> bool)
    requires AutoGroups.FilledThenPruned(v, u, channel, prefix, models, candidate)
    ensures u == v.(groups := u.groups, items := u.items, nextGroup := u.nextGroup, nextItem := u.nextItem)
  {
  }

  method FillAndPrune(v: Tables, channel: int, name: string, detail: Detail, candidate: string -> bool)
      returns (u: Tables)
    requires Intact(v) && name != "" && Text.TrimSpace(name) == name && NamesGiven(detail)
    ensures Intact(u) && AutomaticOnly(v, u, channel, name, Trimmed(detail).models, candidate)
  {
    var ok, models := true, Trimmed(detail).models;
    if models != [] {
      Text.TrimTwice(detail.models[0]);
      assert AutoGroups.IsSubmitted(models, models[0]);
    }
    ok, u := AutoGroups.EnsureAutoGroups(v, channel, name, models, candidate);
    if models != [] {
      GroupsAndItemsOnly(v, u, channel, name + "/", models, candidate);
    }
  }

  lemma TrimmedNames(detail: Detail)
    requires NamesGiven(detail)
    ensures ChildGroups.NamesTrimmed(Trimmed(detail))
  {
    forall i | 0 <= i < |detail.models|
      ensures Text.TrimSpace(Text.TrimSpace(detail.models[i])) == Text.TrimSpace(detail.models[i])
    {
      Text.TrimTwice(detail.models[i]);
    }
  }

  /** Filling in and pruning leave keys, models and grants as they were written. */
  lemma WrittenStill(t: Tables, v: Tables, u: Tables, channel: int, detail: Detail)
    requires ChildrenWritten(t, v, channel, detail)
    requires u == v.(groups := u.groups, items := u.items, nextGroup := u.nextGroup, nextItem := u.nextItem)
    ensures ChildrenWritten(t, u, channel, detail)
  {
    forall model, key, protocols
      ensures HasGrant(u, channel, model, key, protocols) <==> GrantInput(model, key, protocols) in detail.grants
    {
      assert HasGrant(u, channel, model, key, protocols) <==> HasGrant(v, channel, model, key, protocols);
    }
    forall id ensures InOther(u, channel, id) <==> InOther(v, channel, id) {
    }
    forall id ensures KeyWritten(t, u, channel, detail.keys, id) {
      assert KeyWritten(t, v, channel, detail.keys, id);
    }
    forall id ensures ModelWritten(t, u, channel, detail.models, id) {
      assert ModelWritten(t, v, channel, detail.models, id);
    }
    forall id ensures GrantKept(t, u, channel, detail.grants, id) {
      assert GrantKept(t, v, channel, detail.grants, id);
    }
  }

  /** A write told from the tables with the channel's own row, told from those before it. */
  lemma WrittenFromBefore(t: Tables, w: Tables, u: Tables, channel: int, detail: Detail)
    requires w == t.(channels := w.channels, nextChannel := w.nextChannel) && ChildrenWritten(w, u, channel, detail)
    ensures ChildrenWritten(t, u, channel, detail)
  {
    forall id ensures RowApart(t.keys, u.keys, channel, id) && RowApart(t.models, u.models, channel, id) {
      assert RowApart(w.keys, u.keys, channel, id) && RowApart(w.models, u.models, channel, id);
    }
    forall id ensures InOther(t, channel, id) <==> InOther(w, channel, id) {
    }
    forall id ensures KeyWritten(t, u, channel, detail.keys, id) {
      assert KeyWritten(w, u, channel, detail.keys, id);
    }
    forall id ensures ModelWritten(t, u, channel, detail.models, id) {
      assert ModelWritten(w, u, channel, detail.models, id);
    }
    forall id ensures GrantKept(t, u, channel, detail.grants, id) {
      assert GrantKept(w, u, channel, detail.grants, id);
    }
  }

  lemma FollowedFromBefore(t: Tables, w: Tables, v: Tables)
    requires w == t.(channels := w.channels, nextChannel := w.nextChannel) && Followed(w, v)
    ensures Followed(t, v)
  {
    forall id ensures ItemFollows(t, v, id) {
      assert ItemFollows(w, v, id);
    }
    forall g ensures ChoiceFollows(t, v, g) {
      assert ChoiceFollows(w, v, g);
    }
  }

  lemma OutcomeOfWrite(t: Tables, v: Tables, u: Tables, channel: int, name: string, detail: Detail,
      candidate: string -> bool)
    requires Intact(t) && Intact(v) && Followed(t, v) && ChildrenWritten(t, v, channel, Trimmed(detail))
    requires Acceptable(Trimmed(detail))
    requires NamesGiven(detail) && AutomaticOnly(v, u, channel, name, Trimmed(detail).models, candidate)
    ensures ChildGroups.Outcome(t, u, channel, name + "/", Trimmed(detail), candidate)
    ensures ChildrenExistIfSpared(t, u, channel, name, detail, candidate)
  {
    TrimmedNames(detail);
    if detail.models == [] {
      ChildGroups.OutcomeUnfilled(t, v, channel, name + "/", Trimmed(detail), candidate);
      if ChildrenExist(t) {
        FollowedChildren(t, v);
      }
    } else {
      ChildGroups.OutcomeFilled(t, v, u, channel, name + "/", Trimmed(detail), candidate);
      if ChildrenExist(t) {
        ChildGroups.SparedExactly(t, v, u, channel, name + "/", Trimmed(detail), candidate);
      }
    }
  }

  /** What creating and updating a channel have in common, inside one transaction. */
  method WriteChannel(t: Tables, channel: int, name: string, detail: Detail, candidate: string -> bool)
      returns (ok: bool, u: Tables)
    requires Intact(t) && (channel in t.channels || channel == t.nextChannel) && ChannelNameFree(t, name, channel)
    requires Text.TrimSpace(name) == name && NamesGiven(detail)
    ensures ok <==> Acceptable(Trimmed(detail))
    ensures ok ==> Intact(u) && ChannelWritten(t, u, channel, name, detail, candidate)
    ensures ok ==>
      ChildrenExistIfSpared(t, u, channel, name, detail, candidate) && (DepthBounded(t) ==> DepthBounded(u))
  {
    var w := WithRow(t, channel, name);
    WithRowIntact(t, channel, name);
    u := t;
    var v, d := t, Trimmed(detail);
    ok, v := SyncChannelChildren(w, channel, d);
    if !ok {
      return;
    }
    WrittenFromBefore(t, w, v, channel, d);
    FollowedFromBefore(t, w, v);
    u := FillAndPrune(v, channel, name, detail, candidate);
    WrittenStill(t, v, u, channel, d);
    OutcomeOfWrite(t, v, u, channel, name, detail, candidate);
    ChildGroups.OutcomeBounded(t, u, channel, name + "/", d, candidate);
  }

  lemma NoneCleared(t: Tables)
    ensures ActiveCleared(t, {}) == t
  {
    var u := ActiveCleared(t, {});
    assert ItemsOfGrants(t, {}) == {};
    assert u.groups.Keys == t.groups.Keys;
    forall g | g in t.groups.Keys ensures u.groups[g] == t.groups[g] {
    }
    assert u.groups == t.groups;
  }

  /** The transaction that deletes a channel: choices of the items of its grants are cleared, then the
      database cascades. */
  method RemoveChannel(t: Tables, id: int, grantIDs: set<int>) returns (u: Tables)
    requires Intact(t) && id in t.channels && grantIDs == StoredGrants(t, id).Keys
    ensures u == WithoutChannel(t, id) && Intact(u) && ChannelGone(t, u, id)
    ensures (ChildrenExist(t) ==> ChildrenExist(u)) && (DepthBounded(t) ==> DepthBounded(u))
  {
    u := t;
    if grantIDs != {} {
      u := ActiveCleared(t, grantIDs);
    }
    NoneCleared(t);
    u := Cascaded(u, id);
    ClearedThenCascaded(t, id, grantIDs);
    WithoutChannelIntact(t, id);
    WithoutChannelInFull(t, id);
    FollowedBounded(t, u);
    if ChildrenExist(t) {
      FollowedChildren(t, u);
    }
  }

  class Store {
    var tables: Tables

    /** Whether a group name matches the pattern of a channel's automatic groups: `prefix%`, as the
        database compares it. */
    const like: (string, string) -> bool

    const caches: Caches

    constructor (like: (string, string) -> bool)
      ensures tables == EMPTY && Sound() && ChildrenExist(tables) && this.like == like && fresh(caches)
    {
      this.like := like;
      tables := EMPTY;
      caches := new Caches();
      new;
      EmptyIsIntact();
    }

    /** Holds between operations: the tables are intact, and lookups in the caches find what they hold. */
    ghost predicate Sound()
      reads this, caches
    {
      Intact(tables) && caches.InStep(tables)
    }

    /** Commits the tables with a written channel and brings the caches up to date. */
    method Commit(u: Tables, channel: int)
      requires Sound() && Intact(u) && OnlyChannel(tables, u, channel)
      modifies this`tables, caches
      ensures Sound() && tables == u
    {
      tables := u;
      QueryRowsFacts(u.keys, channel, u.nextKey);
      QueryRowsFacts(u.models, channel, u.nextModel);
      caches.ReloadChannelChildren(u, channel, QueryRows(u.keys, channel, u.nextKey),
        QueryRows(u.models, channel, u.nextModel));
    }

    lemma StillInStep(before: Tables)
      requires caches.InStep(before) && Intact(tables)
      requires tables.keys == before.keys && tables.models == before.models && tables.grants == before.grants
      requires tables.nextModel == before.nextModel
      ensures Sound()
    {
      TiedStill(caches.channelKeyCache, caches.channelModelCache, caches.channelGrantCache, before, tables);
    }

    function Candidate(channelName: string): string -> bool
      reads this
    {
      var like := this.like;
      (name: string) => like(channelName + "/", name)
    }

    /** Creates a group with its items. */
    method GroupCreate(name: string, inputs: seq<ItemInput>) returns (ok: bool, id: int)
      requires Sound()
      modifies this`tables
      ensures Sound() && (ChildrenExist(old(tables)) ==> ChildrenExist(tables))
      ensures ok <==> NameFree(old(tables).groups, Text.TrimSpace(name), 0) && Submittable(old(tables), 0, inputs)
      ensures !ok ==> tables == old(tables)
      ensures ok ==> id == old(tables).nextGroup && id !in old(tables).groups
      ensures ok ==> ItemsReplaced(WithGroup(old(tables), Text.TrimSpace(name)), tables, id, inputs)
      ensures ok ==> tables.groups == old(tables).groups[id := Group(Text.TrimSpace(name), 0)]
      ensures ok ==> tables.nextGroup == id + 1
      ensures ok ==> ItemsSubmitted(old(tables), tables, id, inputs)
      ensures ok ==> GroupNesting.DepthHolds(GraphOf(tables.items, tables.nextItem), id)
      ensures DepthBounded(old(tables)) ==> DepthBounded(tables)
    {
      id := 0;
      var u;
      ok, u := GroupStore.CreateGroup(tables, Text.TrimSpace(name), inputs);
      if ok {
        id := tables.nextGroup;
        tables := u;
        StillInStep(old(tables));
      }
    }

    /** Updates what the request carries; a refused part refuses the whole. */
    method GroupUpdate(id: int, name: Option<string>, items: Option<seq<ItemInput>>, active: Option<int>)
        returns (ok: bool)
      requires Sound()
      modifies this`tables
      ensures Sound() && (ChildrenExist(old(tables)) ==> ChildrenExist(tables))
      ensures !ok ==> tables == old(tables)
      ensures ok ==>
        Updatable(old(tables), id, name, items) && GroupUpdated(old(tables), tables, id, name, items, active)
      ensures ok ==> CanChoose(tables, id, active)
      ensures ok && items.Some? ==> ItemsSubmitted(old(tables), tables, id, items.value)
      ensures ok && items.Some? ==> GroupNesting.DepthHolds(GraphOf(tables.items, tables.nextItem), id)
      ensures ok ==> BoundedIfRoom(old(tables), tables, id, items)
      ensures ok <== Updatable(old(tables), id, name, items)
        && (active.Some? && active.value != 0 ==> Stays(old(tables), id, items, active.value))
    {
      var u;
      ok, u := GroupStore.UpdateGroup(tables, id, name, items, active);
      if ok {
        ghost var before := tables;
        tables := u;
        StillInStep(before);
      }
    }

    /** Deletes a group, its items, and the items of other groups that refer to it. */
    method GroupDelete(id: int) returns (ok: bool)
      requires Sound()
      modifies this`tables
      ensures Sound() && (ChildrenExist(old(tables)) ==> ChildrenExist(tables))
      ensures DepthBounded(old(tables)) ==> DepthBounded(tables)
      ensures ok <==> id in old(tables).groups
      ensures !ok ==> tables == old(tables)
      ensures ok ==> tables == GroupDeleted(old(tables), id) && GroupGone(old(tables), tables, id)
    {
      var t := tables;
      if id !in t.groups {
        return false;
      }
      var refs := set i | i in t.items && t.items[i].ref.child == id;
      var u := t;
      if refs != {} {
        u := WithoutItems(t, refs);
      } else {
        assert WithoutItems(t, refs).groups == t.groups && WithoutItems(t, refs).items == t.items;
      }
      var own := set i | i in u.items && u.items[i].ref.group == id;
      tables := u.(groups := u.groups - {id}, items := u.items - own);
      DeletedIntact(t, id);
      DeletedInFull(t, id);
      DeletedBounded(t, id);
      StillInStep(t);
      ok := true;
    }

    /** Creates a channel with its keys, models and grants, and the automatic groups they call for. */
    method ChannelCreate(name: string, detail: Detail) returns (ok: bool, id: int)
      requires Sound()
      modifies this`tables, caches
      ensures Sound() && (DepthBounded(old(tables)) ==> DepthBounded(tables))
      ensures ok <==> CanWrite(old(tables), old(tables).nextChannel, name, detail)
      ensures !ok ==> tables == old(tables)
      ensures ok ==> id == old(tables).nextChannel && id !in old(tables).channels
      ensures ok ==>
        ChannelWritten(old(tables), tables, id, Text.TrimSpace(name), detail, Candidate(Text.TrimSpace(name)))
      ensures ok ==>
        ChildrenExistIfSpared(old(tables), tables, id, Text.TrimSpace(name), detail, Candidate(Text.TrimSpace(name)))
    {
      id := 0;
      var trimmed := Text.TrimSpace(name);
      if !ChannelNameFree(tables, trimmed, tables.nextChannel) || !NamesGiven(detail) {
        return false, id;
      }
      Text.TrimTwice(name);
      var u;
      ok, u := WriteChannel(tables, tables.nextChannel, trimmed, detail, Candidate(trimmed));
      if ok {
        id := tables.nextChannel;
        Commit(u, id);
      }
    }

    /** Replaces a channel as a whole. */
    method ChannelUpdate(id: int, name: string, detail: Detail) returns (ok: bool)
      requires Sound()
      modifies this`tables, caches
      ensures Sound() && (DepthBounded(old(tables)) ==> DepthBounded(tables))
      ensures ok <==> id in old(tables).channels && CanWrite(old(tables), id, name, detail)
      ensures !ok ==> tables == old(tables)
      ensures ok ==>
        ChannelWritten(old(tables), tables, id, Text.TrimSpace(name), detail, Candidate(Text.TrimSpace(name)))
      ensures ok ==>
        ChildrenExistIfSpared(old(tables), tables, id, Text.TrimSpace(name), detail, Candidate(Text.TrimSpace(name)))
    {
      if id !in tables.channels {
        return false;
      }
      var trimmed := Text.TrimSpace(name);
      if !ChannelNameFree(tables, trimmed, id) || !NamesGiven(detail) {
        return false;
      }
      Text.TrimTwice(name);
      var u;
      ok, u := WriteChannel(tables, id, trimmed, detail, Candidate(trimmed));
      if ok {
        Commit(u, id);
      }
    }

    /** Deletes a channel: the choices of its items are cleared by the grants the caches know of, then the
        database deletes what belongs to it. */
    method ChannelDelete(id: int) returns (ok: bool)
      requires Sound()
      modifies this`tables, caches
      ensures Sound() && (ChildrenExist(old(tables)) ==> ChildrenExist(tables))
      ensures DepthBounded(old(tables)) ==> DepthBounded(tables)
      ensures ok <==> id in old(tables).channels
      ensures !ok ==> tables == old(tables)
      ensures ok ==> tables == WithoutChannel(old(tables), id) && ChannelGone(old(tables), tables, id)
    {
      if id !in tables.channels {
        return false;
      }
      var grantIDs := caches.ChannelGrantIDs(id);
      assert grantIDs == StoredGrants(tables, id).Keys;
      var t := RemoveChannel(tables, id, grantIDs);
      caches.ForgetChannel(id, grantIDs);
      tables := t;
      ok := true;
    }

    /** Over every run, from the empty store or any intact one: the child-group graph has no cycle, the
        active item of a group is 0 or one of its own, and a lookup of a grant in the caches finds what the
        tables hold. Without writes to channels, every child group exists as well; without updates that
        submit items, no chain of child groups becomes too long. */
    method Perform(ops: seq<Op>)
      requires Sound()
      modifies this`tables, caches
      ensures Sound()
      ensures AcyclicGroups(tables)
      ensures forall g :: g in tables.groups && tables.groups[g].active != 0 ==>
        tables.groups[g].active in tables.items && tables.items[tables.groups[g].active].ref.group == g
      ensures forall id :: caches.FindsAsIn(tables, id)
      ensures (forall i :: 0 <= i < |ops| ==> !WritesChannel(ops[i])) && ChildrenExist(old(tables)) ==>
        forall id :: id in tables.items && tables.items[id].ref.child != 0 ==>
          tables.items[id].ref.child in tables.groups
      ensures (forall i :: 0 <= i < |ops| ==> !SubmitsItems(ops[i])) && DepthBounded(old(tables)) ==>
        DepthBounded(tables)
    {
      for i := 0 to |ops|
        invariant Sound()
        invariant (forall k :: 0 <= k < i ==> !WritesChannel(ops[k])) && ChildrenExist(old(tables)) ==>
          ChildrenExist(tables)
        invariant (forall k :: 0 <= k < i ==> !SubmitsItems(ops[k])) && DepthBounded(old(tables)) ==>
          DepthBounded(tables)
      {
        match ops[i] {
          case CreateGroup(name, inputs) => var ok, id := GroupCreate(name, inputs);
          case UpdateGroup(id, name, items, active) => var ok := GroupUpdate(id, name, items, active);
          case DeleteGroup(id) => var ok := GroupDelete(id);
          case CreateChannel(name, detail) => var ok, id := ChannelCreate(name, detail);
          case UpdateChannel(id, name, detail) => var ok := ChannelUpdate(id, name, detail);
          case DeleteChannel(id) => var ok := ChannelDelete(id);
        }
      }
      forall g | g in tables.groups && tables.groups[g].active != 0
        ensures tables.groups[g].active in tables.items && tables.items[tables.groups[g].active].ref.group == g
      {
        assert ActiveSound(tables, g);
      }
      forall id ensures caches.FindsAsIn(tables, id) {
        LookupAgrees(caches.channelKeyCache, caches.channelModelCache, caches.channelGrantCache, tables, id);
      }
      if ChildrenExist(tables) {
        forall id | id in tables.items && tables.items[id].ref.child != 0
          ensures tables.items[id].ref.child in tables.groups
        {
          assert ChildSound(tables, id);
        }
      }
    }
  }
}
