/** Writing the keys, models and grants of a channel, with everything that hangs on them: grants fall
    with their key or model, group items fall with their grant, and a group whose chosen item falls
    has its choice cleared. */
module ChannelSync {
  import opened Common
  import opened Reconcile
  import opened Database

  // ---------- What an operation on channels does to groups ----------

  /** Items are lost exactly with their grant, and choices exactly with their item. */
  ghost predicate Followed(t: Tables, u: Tables) {
    && u.groups.Keys == t.groups.Keys && t.nextGrant <= u.nextGrant
    && u.nextGroup == t.nextGroup && u.nextItem == t.nextItem
    && (forall id :: ItemFollows(t, u, id))
    && (forall id :: id in u.grants && id < t.nextGrant ==> id in t.grants)
    && (forall g :: ChoiceFollows(t, u, g))
  }

  predicate ItemFollows(t: Tables, u: Tables, id: int) {
    && (id in u.items ==> id in t.items && u.items[id] == t.items[id])
    && (id in t.items ==> (id in u.items <==> t.items[id].ref.grant == 0 || t.items[id].ref.grant in u.grants))
  }

  predicate ChoiceFollows(t: Tables, u: Tables, g: int) {
    g in t.groups && g in u.groups ==>
      u.groups[g] == if t.groups[g].active in u.items then t.groups[g] else t.groups[g].(active := 0)
  }

  lemma FollowedTwice(t: Tables, u: Tables, v: Tables)
    requires Intact(t) && Followed(t, u) && Followed(u, v)
    ensures Followed(t, v)
  {
    forall id ensures ItemFollows(t, v, id) {
      assert ItemFollows(t, u, id) && ItemFollows(u, v, id);
      assert ItemSound(t, id);
    }
    forall g ensures ChoiceFollows(t, v, g) {
      assert ChoiceFollows(t, u, g) && ChoiceFollows(u, v, g);
      assert ActiveSound(t, g);
      if g in t.groups {
        var active := t.groups[g].active;
        assert ItemFollows(t, u, active) && ItemFollows(u, v, active) && ItemFollows(u, v, 0) && ItemFollows(t, u, 0);
      }
    }
  }

  /** The tables after their grants were replaced: items and choices follow. */
  function WithGrants(t: Tables, grants: map<int, Row<GrantRef, bv8>>, next: int): Tables {
    WithoutGrants(t, t.grants.Keys - grants.Keys).(grants := grants, nextGrant := next)
  }

  lemma WithGrantsFollowed(t: Tables, grants: map<int, Row<GrantRef, bv8>>, next: int)
    requires Intact(t) && t.nextGrant <= next
    requires forall id :: id in grants ==> id in t.grants || t.nextGrant <= id
    ensures Followed(t, WithGrants(t, grants, next))
  {
    var u := WithGrants(t, grants, next);
    forall id ensures ItemFollows(t, u, id) {
      assert ItemSound(t, id);
    }
    forall g ensures ChoiceFollows(t, u, g) {
      assert ActiveSound(t, g);
    }
  }

  lemma WithGrantsIntact(t: Tables, grants: map<int, Row<GrantRef, bv8>>, next: int)
    requires Intact(t) && Unique(grants) && 0 < next && Below(grants, next)
    requires forall id :: GrantSound(t.(grants := grants), id)
    ensures Intact(WithGrants(t, grants, next))
  {
    var gone := t.grants.Keys - grants.Keys;
    var u, v := WithoutGrants(t, gone), WithGrants(t, grants, next);
    WithoutGrantsIntact(t, gone);
    forall id ensures ItemSound(v, id) {
      assert ItemSound(u, id) && ItemSound(t, id);
    }
    forall g ensures ActiveSound(v, g) {
      assert ActiveSound(u, g);
    }
    forall id ensures GrantSound(v, id) {
      assert GrantSound(t.(grants := grants), id);
    }
  }

  lemma FollowedChildren(t: Tables, u: Tables)
    requires Followed(t, u) && ChildrenExist(t)
    ensures ChildrenExist(u)
  {
    forall id ensures ChildSound(u, id) {
      assert ItemFollows(t, u, id) && ChildSound(t, id);
    }
  }

  lemma FollowedBounded(t: Tables, u: Tables)
    requires Intact(t) && Intact(u) && Followed(t, u)
    ensures DepthBounded(t) ==> DepthBounded(u)
  {
    forall id ensures ReferenceKept(t, u, id) {
      assert ItemFollows(t, u, id);
    }
    FewerReferencesBounded(t, u);
  }

  // ---------- Keys ----------

  /** A submitted key; what is not submitted is `None`. */
  datatype KeyInput = KeyInput(name: string, secret: string, enabled: Option<bool>, proxyNode: Option<int>)

  function Resolved(input: KeyInput): KeyColumns {
    KeyColumns(
      input.secret,
      if input.enabled.Some? then input.enabled.value else true,
      if input.proxyNode.Some? && input.proxyNode.value > 0 then input.proxyNode.value else 0,
      false, 0)
  }

  /** The columns say what was submitted: a key is on unless it was switched off, and a proxy node counts
      only when it is positive. */
  predicate AsSubmitted(columns: KeyColumns, input: KeyInput) {
    && columns.secret == input.secret
    && (columns.enabled <==> input.enabled != Some(false))
    && (input.proxyNode.Some? && input.proxyNode.value > 0 ==> columns.proxyNode == input.proxyNode.value)
    && (input.proxyNode.None? || input.proxyNode.value <= 0 ==> columns.proxyNode == 0)
  }

  function KeyRows(channel: int, inputs: seq<KeyInput>): (rows: seq<Row<Named, KeyColumns>>)
    ensures |rows| == |inputs|
    ensures forall i :: 0 <= i < |inputs| ==> rows[i] == Row(Named(channel, inputs[i].name), Resolved(inputs[i]))
  {
    seq(|inputs|, i requires 0 <= i < |inputs| => Row(Named(channel, inputs[i].name), Resolved(inputs[i])))
  }

  function OfChannel(channel: int): Named -> bool { (ref: Named) => ref.channel == channel }

  /** A stored key is rewritten when one of its columns changes; being switched here is a decision of
      the operator, and its counters stay. */
  function KeyUpdate(): (KeyColumns, KeyColumns) -> KeyColumns {
    (stored: KeyColumns, asked: KeyColumns) =>
      if stored.secret != asked.secret || stored.enabled != asked.enabled || stored.proxyNode != asked.proxyNode
      then KeyColumns(asked.secret, asked.enabled, asked.proxyNode, !asked.enabled, stored.stats)
      else stored
  }

  function KeyNames(inputs: seq<KeyInput>): (names: seq<string>)
    ensures |names| == |inputs| && forall i :: 0 <= i < |inputs| ==> names[i] == inputs[i].name
  {
    seq(|inputs|, i requires 0 <= i < |inputs| => inputs[i].name)
  }

  lemma NamesAndRows<V>(channel: int, names: seq<string>, rows: seq<Row<Named, V>>)
    requires |rows| == |names| && forall i :: 0 <= i < |names| ==> rows[i].ref == Named(channel, names[i])
    ensures DistinctRefs(rows) <==> NoRepeat(names)
  {
    if DistinctRefs(rows) {
      forall i, j | 0 <= i < j < |names| ensures names[i] != names[j] {
        assert rows[i].ref != rows[j].ref;
      }
    }
  }

  /** The grants that are left when keys and models go. */
  function GrantsAmong(t: Tables, keys: set<int>, models: set<int>): map<int, Row<GrantRef, bv8>> {
    map id | id in t.grants && t.grants[id].ref.key in keys && t.grants[id].ref.model in models :: t.grants[id]
  }

  lemma FallIntact(t: Tables, keys: set<int>, models: set<int>)
    requires Intact(t)
    ensures var v := WithGrants(t, GrantsAmong(t, keys, models), t.nextGrant); Intact(v) && Followed(t, v)
  {
    var left := GrantsAmong(t, keys, models);
    forall id ensures GrantSound(t.(grants := left), id) {
      assert GrantSound(t, id);
    }
    WithGrantsIntact(t, left, t.nextGrant);
    WithGrantsFollowed(t, left, t.nextGrant);
  }

  ghost predicate KeysSynced(t: Tables, u: Tables, channel: int, inputs: seq<KeyInput>) {
    && Reconciled(t.keys, u.keys, OfChannel(channel), KeyRows(channel, inputs), KeyUpdate(), t.nextKey, u.nextKey)
    && u == WithGrants(t, GrantsAmong(t, u.keys.Keys, t.models.Keys), t.nextGrant).(keys := u.keys,
      nextKey := u.nextKey)
  }

  /** The references a list leaves alone: a row that stays has the reference it had. */
  lemma RefsStay<V>(rows: map<int, Row<Named, V>>, after: map<int, Row<Named, V>>, channel: int,
      asked: seq<Row<Named, V>>, merge: (V, V) -> V, next: int, next': int, id: int)
    requires Reconciled(rows, after, OfChannel(channel), asked, merge, next, next')
    requires forall i :: 0 <= i < |asked| ==> asked[i].ref.channel == channel
    ensures id in rows && id in after ==> after[id].ref == rows[id].ref
    ensures id in after && id !in rows ==> after[id].ref.channel == channel
  {
    AskedFacts(asked);
    assert IdFits(rows, after, OfChannel(channel), asked, merge, next, next', id);
  }

  lemma KeysSyncedIntact(t: Tables, u: Tables, channel: int, inputs: seq<KeyInput>)
    requires Intact(t) && channel in t.channels && KeysSynced(t, u, channel, inputs)
    ensures Intact(u) && Followed(t, u)
  {
    var v := WithGrants(t, GrantsAmong(t, u.keys.Keys, t.models.Keys), t.nextGrant);
    FallIntact(t, u.keys.Keys, t.models.Keys);
    forall id ensures GrantSound(u, id) {
      assert GrantSound(v, id);
      if id in v.grants {
        RefsStay(t.keys, u.keys, channel, KeyRows(channel, inputs), KeyUpdate(), t.nextKey, u.nextKey,
          v.grants[id].ref.key);
      }
    }
    forall id | id in u.keys ensures u.keys[id].ref.channel in u.channels {
      RefsStay(t.keys, u.keys, channel, KeyRows(channel, inputs), KeyUpdate(), t.nextKey, u.nextKey, id);
    }
    OnlyKeysAndModels(t, v, u);
  }

  /** Keys and models are nothing that items or choices look at. */
  lemma OnlyKeysAndModels(t: Tables, v: Tables, u: Tables)
    requires Intact(v) && Followed(t, v)
    requires u == v.(keys := u.keys, nextKey := u.nextKey, models := u.models, nextModel := u.nextModel)
    requires Keyed(u)
    ensures Intact(u) && Followed(t, u)
  {
    forall id ensures ItemSound(u, id) {
      assert ItemSound(v, id);
    }
    forall g ensures ActiveSound(u, g) {
      assert ActiveSound(v, g);
    }
    forall id ensures ItemFollows(t, u, id) {
      assert ItemFollows(t, v, id);
    }
    forall g ensures ChoiceFollows(t, u, g) {
      assert ChoiceFollows(t, v, g);
    }
  }

  /** A key as it was, as it is, and as it was submitted: the columns are the submitted ones, counters stay,
      and the operator's stop is left alone unless a column changed, and is then the opposite of enabled. */
  predicate KeyRewritten(before: Row<Named, KeyColumns>, after: Row<Named, KeyColumns>, input: KeyInput) {
    && after.ref == before.ref && before.ref.name == input.name
    && AsSubmitted(after.value, input)
    && after.value.stats == before.value.stats
    && (AsSubmitted(before.value, input) ==> after.value == before.value)
    && (!AsSubmitted(before.value, input) ==> after.value.operatorDisabled == !after.value.enabled)
  }

  /** A key that was not there: as submitted, without an operator's stop and without counters. */
  predicate KeyEntered(after: Row<Named, KeyColumns>, channel: int, input: KeyInput) {
    && after.ref.channel == channel && after.ref.name == input.name && AsSubmitted(after.value, input)
    && !after.value.operatorDisabled && after.value.stats == 0
  }

  /** A key that is submitted again has the submitted columns under its old id, and its counters; when a
      column changes, switching it off here becomes the operator's decision, and switching it on ends it. */
  lemma KeyAfter(t: Tables, u: Tables, channel: int, inputs: seq<KeyInput>, id: int, i: nat)
    requires KeysSynced(t, u, channel, inputs) && NoRepeat(KeyNames(inputs)) && i < |inputs|
    requires id in t.keys && t.keys[id].ref == Named(channel, inputs[i].name)
    ensures id in u.keys && u.keys[id].ref == t.keys[id].ref
    ensures KeyRewritten(t.keys[id], u.keys[id], inputs[i])
  {
    var rows := KeyRows(channel, inputs);
    NamesAndRows(channel, KeyNames(inputs), rows);
    AskedFacts(rows);
    assert Asked(rows, rows[i].ref) == Some(rows[i].value);
    assert IdFits(t.keys, u.keys, OfChannel(channel), rows, KeyUpdate(), t.nextKey, u.nextKey, id);
  }

  /** A new key is one of the submitted, without counters. */
  lemma KeyIsNew(t: Tables, u: Tables, channel: int, inputs: seq<KeyInput>, id: int) returns (i: nat)
    requires KeysSynced(t, u, channel, inputs) && NoRepeat(KeyNames(inputs)) && id in u.keys && id !in t.keys
    ensures i < |inputs| && KeyEntered(u.keys[id], channel, inputs[i]) && t.nextKey <= id
  {
    var rows := KeyRows(channel, inputs);
    NamesAndRows(channel, KeyNames(inputs), rows);
    AskedFacts(rows);
    assert IdFits(t.keys, u.keys, OfChannel(channel), rows, KeyUpdate(), t.nextKey, u.nextKey, id);
    assert Asked(rows, u.keys[id].ref).Some?;
    i :| 0 <= i < |rows| && rows[i].ref == u.keys[id].ref;
  }

  method SyncChannelKeys(t: Tables, channel: int, inputs: seq<KeyInput>) returns (ok: bool, u: Tables)
    requires Intact(t) && channel in t.channels
    ensures ok <==> NoRepeat(KeyNames(inputs))
    ensures ok ==> KeysSynced(t, u, channel, inputs) && Intact(u) && Followed(t, u)
  {
    u := t;
    var rows := KeyRows(channel, inputs);
    NamesAndRows(channel, KeyNames(inputs), rows);
    var keys, next;
    ok, keys, next := Sync(t.keys, OfChannel(channel), rows, KeyUpdate(), t.nextKey);
    if ok {
      var left := GrantsAmong(t, keys.Keys, t.models.Keys);
      u := WithGrants(t, left, t.nextGrant).(keys := keys, nextKey := next);
      KeysSyncedIntact(t, u, channel, inputs);
    }
  }

  // ---------- Models ----------

  function ModelRows(channel: int, names: seq<string>): (rows: seq<Row<Named, int>>)
    ensures |rows| == |names| && forall i :: 0 <= i < |names| ==> rows[i] == Row(Named(channel, names[i]), 0)
  {
    seq(|names|, i requires 0 <= i < |names| => Row(Named(channel, names[i]), 0))
  }

  /** A model that stays has no column to rewrite. */
  function ModelUpdate(): (int, int) -> int { (stored: int, asked: int) => stored }

  ghost predicate ModelsSynced(t: Tables, u: Tables, channel: int, names: seq<string>) {
    && Reconciled(t.models, u.models, OfChannel(channel), ModelRows(channel, names), ModelUpdate(), t.nextModel,
      u.nextModel)
    && u == WithGrants(t, GrantsAmong(t, t.keys.Keys, u.models.Keys), t.nextGrant).(models := u.models,
      nextModel := u.nextModel)
  }

  lemma ModelsSyncedIntact(t: Tables, u: Tables, channel: int, names: seq<string>)
    requires Intact(t) && channel in t.channels && ModelsSynced(t, u, channel, names)
    ensures Intact(u) && Followed(t, u)
  {
    var v := WithGrants(t, GrantsAmong(t, t.keys.Keys, u.models.Keys), t.nextGrant);
    FallIntact(t, t.keys.Keys, u.models.Keys);
    forall id ensures GrantSound(u, id) {
      assert GrantSound(v, id);
      if id in v.grants {
        RefsStay(t.models, u.models, channel, ModelRows(channel, names), ModelUpdate(), t.nextModel, u.nextModel,
          v.grants[id].ref.model);
      }
    }
    forall id | id in u.models ensures u.models[id].ref.channel in u.channels {
      RefsStay(t.models, u.models, channel, ModelRows(channel, names), ModelUpdate(), t.nextModel, u.nextModel, id);
    }
    OnlyKeysAndModels(t, v, u);
  }

  /** A model that stays is not touched at all, counters included. */
  lemma ModelAfter(t: Tables, u: Tables, channel: int, names: seq<string>, id: int)
    requires ModelsSynced(t, u, channel, names) && id in t.models && id in u.models
    ensures u.models[id] == t.models[id]
  {
    assert IdFits(t.models, u.models, OfChannel(channel), ModelRows(channel, names), ModelUpdate(), t.nextModel,
      u.nextModel, id);
  }

  method SyncChannelModels(t: Tables, channel: int, names: seq<string>) returns (ok: bool, u: Tables)
    requires Intact(t) && channel in t.channels
    ensures ok <==> NoRepeat(names)
    ensures ok ==> ModelsSynced(t, u, channel, names) && Intact(u) && Followed(t, u)
  {
    u := t;
    var rows := ModelRows(channel, names);
    NamesAndRows(channel, names, rows);
    var models, next;
    ok, models, next := Sync(t.models, OfChannel(channel), rows, ModelUpdate(), t.nextModel);
    if ok {
      var left := GrantsAmong(t, t.keys.Keys, models.Keys);
      u := WithGrants(t, left, t.nextGrant).(models := models, nextModel := next);
      ModelsSyncedIntact(t, u, channel, names);
    }
  }

  // ---------- Grants ----------

  datatype GrantInput = GrantInput(modelName: string, keyName: string, protocols: bv8)

  /** The bits of the five protocols. */
  const DEFINED: bv8 := 62

  predicate ProtocolsOk(p: bv8) { p != 0 && p & !DEFINED == 0 }

  /** At least one of the bits 1 to 5, and no other. */
  lemma ProtocolsInFull(p: bv8)
    ensures ProtocolsOk(p) <==> 0 < p < 64 && p & 1 == 0
  {
  }

  function GrantUpdate(): (bv8, bv8) -> bv8 { (stored: bv8, asked: bv8) => asked }

  /** The grants of a channel are those of its models. */
  function OfModels(models: map<int, Row<Named, int>>, channel: int): GrantRef -> bool {
    (ref: GrantRef) => ref.model in models && models[ref.model].ref.channel == channel
  }

  /** One submitted grant, its names resolved within the channel. */
  predicate ResolvesTo(t: Tables, channel: int, input: GrantInput, row: Row<GrantRef, bv8>) {
    && row.ref.model in t.models && t.models[row.ref.model].ref == Named(channel, input.modelName)
    && row.ref.key in t.keys && t.keys[row.ref.key].ref == Named(channel, input.keyName)
    && row.value == input.protocols
  }

  ghost predicate AllResolve(t: Tables, channel: int, inputs: seq<GrantInput>, rows: seq<Row<GrantRef, bv8>>) {
    |rows| == |inputs| && forall i :: 0 <= i < |inputs| ==> ResolvesTo(t, channel, inputs[i], rows[i])
  }

  ghost predicate DistinctPairs(inputs: seq<GrantInput>) {
    forall i, j :: 0 <= i < j < |inputs| ==>
      inputs[i].modelName != inputs[j].modelName || inputs[i].keyName != inputs[j].keyName
  }

  predicate Grantable(t: Tables, channel: int, input: GrantInput) {
    && HasRef(t.models, Named(channel, input.modelName)) && HasRef(t.keys, Named(channel, input.keyName))
    && ProtocolsOk(input.protocols)
  }

  ghost predicate GrantsSynced(t: Tables, u: Tables, channel: int, inputs: seq<GrantInput>,
      rows: seq<Row<GrantRef, bv8>>) {
    && AllResolve(t, channel, inputs, rows)
    && Reconciled(t.grants, u.grants, OfModels(t.models, channel), rows, GrantUpdate(), t.nextGrant, u.nextGrant)
    && u == WithGrants(t, u.grants, u.nextGrant)
  }

  lemma PairsAndRows(t: Tables, channel: int, inputs: seq<GrantInput>, rows: seq<Row<GrantRef, bv8>>)
    requires Unique(t.models) && Unique(t.keys) && AllResolve(t, channel, inputs, rows)
    ensures DistinctRefs(rows) <==> DistinctPairs(inputs)
  {
    forall i, j | 0 <= i < j < |inputs|
      ensures rows[i].ref != rows[j].ref <==>
        inputs[i].modelName != inputs[j].modelName || inputs[i].keyName != inputs[j].keyName
    {
      assert ResolvesTo(t, channel, inputs[i], rows[i]) && ResolvesTo(t, channel, inputs[j], rows[j]);
    }
  }

  lemma GrantsSyncedIntact(t: Tables, u: Tables, channel: int, inputs: seq<GrantInput>, rows: seq<Row<GrantRef, bv8>>)
    requires Intact(t) && channel in t.channels && GrantsSynced(t, u, channel, inputs, rows)
    ensures Intact(u) && Followed(t, u)
  {
    AskedFacts(rows);
    forall id ensures GrantSound(t.(grants := u.grants), id) {
      assert GrantSound(t, id);
      assert IdFits(t.grants, u.grants, OfModels(t.models, channel), rows, GrantUpdate(), t.nextGrant, u.nextGrant, id);
      if id in u.grants && id !in t.grants {
        var i :| 0 <= i < |rows| && rows[i].ref == u.grants[id].ref;
        assert ResolvesTo(t, channel, inputs[i], rows[i]);
      }
    }
    forall id | id in u.grants ensures id in t.grants || t.nextGrant <= id {
      assert IdFits(t.grants, u.grants, OfModels(t.models, channel), rows, GrantUpdate(), t.nextGrant, u.nextGrant, id);
    }
    WithGrantsIntact(t, u.grants, u.nextGrant);
    WithGrantsFollowed(t, u.grants, u.nextGrant);
  }

  function ByName<V>(rows: map<int, Row<Named, V>>, channel: int): (ids: map<string, int>)
    requires Unique(rows)
    ensures forall name :: name in ids <==> HasRef(rows, Named(channel, name))
    ensures forall name :: name in ids ==> ids[name] in rows && rows[ids[name]].ref == Named(channel, name)
  {
    map id | id in rows && rows[id].ref.channel == channel :: rows[id].ref.name := id
  }

  /** Looks the submitted names up in the channel; the first that is missing refuses everything. */
  method ResolveGrants(t: Tables, channel: int, inputs: seq<GrantInput>)
      returns (ok: bool, rows: seq<Row<GrantRef, bv8>>)
    requires Unique(t.models) && Unique(t.keys)
    ensures ok <==> forall i :: 0 <= i < |inputs| ==> Grantable(t, channel, inputs[i])
    ensures ok ==> AllResolve(t, channel, inputs, rows)
  {
    rows := [];
    var modelIDByName := ByName(t.models, channel);
    var keyIDByName := ByName(t.keys, channel);
    for i := 0 to |inputs|
      invariant AllResolve(t, channel, inputs[..i], rows)
      invariant forall k :: 0 <= k < i ==> Grantable(t, channel, inputs[k])
    {
      var g := inputs[i];
      if g.modelName !in modelIDByName || g.keyName !in keyIDByName || !ProtocolsOk(g.protocols) {
        assert !Grantable(t, channel, inputs[i]);
        return false, rows;
      }
      rows := rows + [Row(GrantRef(modelIDByName[g.modelName], keyIDByName[g.keyName]), g.protocols)];
    }
    assert inputs[..|inputs|] == inputs;
    ok := true;
  }

  method SyncChannelGrants(t: Tables, channel: int, inputs: seq<GrantInput>)
    returns (ok: bool, u: Tables, rows: seq<Row<GrantRef, bv8>>)
    requires Intact(t) && channel in t.channels
    ensures ok <==> (forall i :: 0 <= i < |inputs| ==> Grantable(t, channel, inputs[i])) && DistinctPairs(inputs)
    ensures ok ==> GrantsSynced(t, u, channel, inputs, rows) && Intact(u) && Followed(t, u)
  {
    u := t;
    ok, rows := ResolveGrants(t, channel, inputs);
    if !ok {
      return false, t, rows;
    }
    PairsAndRows(t, channel, inputs, rows);
    forall i | 0 <= i < |rows| ensures OfModels(t.models, channel)(rows[i].ref) {
      assert ResolvesTo(t, channel, inputs[i], rows[i]);
    }
    var grants, next;
    ok, grants, next := Sync(t.grants, OfModels(t.models, channel), rows, GrantUpdate(), t.nextGrant);
    if ok {
      u := WithGrants(t, grants, next);
      GrantsSyncedIntact(t, u, channel, inputs, rows);
    }
  }

  // ---------- A whole channel ----------

  datatype Detail = Detail(keys: seq<KeyInput>, models: seq<string>, grants: seq<GrantInput>)

  predicate NamesSubmitted(detail: Detail, g: GrantInput) {
    && (exists i :: 0 <= i < |detail.models| && detail.models[i] == g.modelName)
    && (exists i :: 0 <= i < |detail.keys| && detail.keys[i].name == g.keyName)
  }

  /** A submission that goes through: names distinct, and grants only between submitted names. */
  ghost predicate Acceptable(detail: Detail) {
    && NoRepeat(KeyNames(detail.keys)) && NoRepeat(detail.models) && DistinctPairs(detail.grants)
    && forall i :: 0 <= i < |detail.grants| ==>
      NamesSubmitted(detail, detail.grants[i]) && ProtocolsOk(detail.grants[i].protocols)
  }

  /** A named row of a channel is there exactly when its name was submitted. */
  ghost predicate NamesAre<V>(rows: map<int, Row<Named, V>>, channel: int, names: seq<string>) {
    forall name :: HasRef(rows, Named(channel, name)) <==> name in names
  }

  predicate HasGrant(t: Tables, channel: int, model: string, key: string, protocols: bv8) {
    exists id :: id in t.grants && ResolvesTo(t, channel, GrantInput(model, key, protocols), t.grants[id])
  }

  /** A channel holds exactly the submitted keys, models and grants, by their names. */
  ghost predicate Holds(t: Tables, channel: int, detail: Detail) {
    && NamesAre(t.keys, channel, KeyNames(detail.keys))
    && NamesAre(t.models, channel, detail.models)
    && forall model, key, protocols ::
         HasGrant(t, channel, model, key, protocols) <==> GrantInput(model, key, protocols) in detail.grants
  }

  lemma NamesAfter<V>(rows: map<int, Row<Named, V>>, after: map<int, Row<Named, V>>, channel: int, names: seq<string>,
      asked: seq<Row<Named, V>>, merge: (V, V) -> V, next: int, next': int)
    requires Reconciled(rows, after, OfChannel(channel), asked, merge, next, next')
    requires |asked| == |names| && forall i :: 0 <= i < |names| ==> asked[i].ref == Named(channel, names[i])
    ensures NamesAre(after, channel, names)
  {
    AskedFacts(asked);
    forall name ensures HasRef(after, Named(channel, name)) <==> name in names {
      if HasRef(after, Named(channel, name)) {
        var id :| id in after && after[id].ref == Named(channel, name);
        assert IdFits(rows, after, OfChannel(channel), asked, merge, next, next', id);
        assert Asked(asked, after[id].ref).Some?;
      }
      if name in names {
        var i :| 0 <= i < |names| && names[i] == name;
        assert HasRef(after, asked[i].ref);
      }
    }
  }

  lemma GrantWasAsked(t: Tables, u: Tables, channel: int, inputs: seq<GrantInput>, rows: seq<Row<GrantRef, bv8>>,
      g: GrantInput, id: int)
    requires Intact(t) && DistinctPairs(inputs) && GrantsSynced(t, u, channel, inputs, rows)
    requires id in u.grants && ResolvesTo(u, channel, g, u.grants[id])
    ensures g in inputs
  {
    PairsAndRows(t, channel, inputs, rows);
    AskedFacts(rows);
    assert IdFits(t.grants, u.grants, OfModels(t.models, channel), rows, GrantUpdate(), t.nextGrant, u.nextGrant, id);
    assert Asked(rows, u.grants[id].ref) == Some(g.protocols);
    var i :| 0 <= i < |rows| && rows[i].ref == u.grants[id].ref;
    assert ResolvesTo(t, channel, inputs[i], rows[i]);
    assert inputs[i] == g;
  }

  lemma AskedGrantIsThere(t: Tables, u: Tables, channel: int, inputs: seq<GrantInput>, rows: seq<Row<GrantRef, bv8>>,
      i: nat)
    requires Intact(t) && DistinctPairs(inputs) && GrantsSynced(t, u, channel, inputs, rows) && i < |inputs|
    ensures HasGrant(u, channel, inputs[i].modelName, inputs[i].keyName, inputs[i].protocols)
  {
    PairsAndRows(t, channel, inputs, rows);
    AskedFacts(rows);
    assert ResolvesTo(t, channel, inputs[i], rows[i]);
    assert HasRef(u.grants, rows[i].ref);
    var id :| id in u.grants && u.grants[id].ref == rows[i].ref;
    assert IdFits(t.grants, u.grants, OfModels(t.models, channel), rows, GrantUpdate(), t.nextGrant, u.nextGrant, id);
    assert ResolvesTo(u, channel, inputs[i], u.grants[id]);
  }

  lemma GrantsAfter(t: Tables, u: Tables, channel: int, inputs: seq<GrantInput>, rows: seq<Row<GrantRef, bv8>>,
      model: string, key: string, protocols: bv8)
    requires Intact(t) && DistinctPairs(inputs) && GrantsSynced(t, u, channel, inputs, rows)
    ensures HasGrant(u, channel, model, key, protocols) <==> GrantInput(model, key, protocols) in inputs
  {
    var g := GrantInput(model, key, protocols);
    if HasGrant(u, channel, model, key, protocols) {
      var id :| id in u.grants && ResolvesTo(u, channel, g, u.grants[id]);
      GrantWasAsked(t, u, channel, inputs, rows, g, id);
    }
    if g in inputs {
      var i :| 0 <= i < |inputs| && inputs[i] == g;
      AskedGrantIsThere(t, u, channel, inputs, rows, i);
    }
  }

  lemma GrantableExactly(t: Tables, channel: int, detail: Detail, i: nat)
    requires NamesAre(t.keys, channel, KeyNames(detail.keys)) && NamesAre(t.models, channel, detail.models)
    requires i < |detail.grants|
    ensures Grantable(t, channel, detail.grants[i]) <==>
      NamesSubmitted(detail, detail.grants[i]) && ProtocolsOk(detail.grants[i].protocols)
  {
    var g := detail.grants[i];
    assert HasRef(t.models, Named(channel, g.modelName)) <==> g.modelName in detail.models;
    assert HasRef(t.keys, Named(channel, g.keyName)) <==> g.keyName in KeyNames(detail.keys);
    if k :| 0 <= k < |detail.keys| && detail.keys[k].name == g.keyName {
      assert KeyNames(detail.keys)[k] == g.keyName;
    }
  }

  /** A key or model that was there and is submitted again keeps its id. */
  ghost predicate IdsKept<V>(rows: map<int, Row<Named, V>>, after: map<int, Row<Named, V>>, channel: int,
      names: seq<string>) {
    forall id :: id in rows && (rows[id].ref.channel != channel || rows[id].ref.name in names) ==>
      id in after && after[id].ref == rows[id].ref
  }

  lemma IdsKeptAfter<V>(rows: map<int, Row<Named, V>>, after: map<int, Row<Named, V>>, channel: int, names: seq<string>,
      asked: seq<Row<Named, V>>, merge: (V, V) -> V, next: int, next': int)
    requires Reconciled(rows, after, OfChannel(channel), asked, merge, next, next')
    requires |asked| == |names| && forall i :: 0 <= i < |names| ==> asked[i].ref == Named(channel, names[i])
    ensures IdsKept(rows, after, channel, names)
  {
    AskedFacts(asked);
    forall id | id in rows && (rows[id].ref.channel != channel || rows[id].ref.name in names)
      ensures id in after && after[id].ref == rows[id].ref
    {
      assert IdFits(rows, after, OfChannel(channel), asked, merge, next, next', id);
      if rows[id].ref.channel == channel {
        var i :| 0 <= i < |names| && names[i] == rows[id].ref.name;
        assert asked[i].ref == rows[id].ref;
      }
    }
  }

  /** After keys and models were written: both are as submitted, and what stays keeps its id. */
  ghost predicate NamesWritten(t: Tables, w: Tables, channel: int, detail: Detail) {
    && NamesAre(w.keys, channel, KeyNames(detail.keys)) && NamesAre(w.models, channel, detail.models)
    && IdsKept(t.keys, w.keys, channel, KeyNames(detail.keys)) && IdsKept(t.models, w.models, channel, detail.models)
    && w.channels == t.channels
  }

  lemma KeysThenModels(t: Tables, v: Tables, w: Tables, channel: int, detail: Detail)
    requires KeysSynced(t, v, channel, detail.keys) && ModelsSynced(v, w, channel, detail.models)
    ensures NamesWritten(t, w, channel, detail)
  {
    var keys, models := KeyRows(channel, detail.keys), ModelRows(channel, detail.models);
    NamesAfter(t.keys, v.keys, channel, KeyNames(detail.keys), keys, KeyUpdate(), t.nextKey, v.nextKey);
    NamesAfter(v.models, w.models, channel, detail.models, models, ModelUpdate(), v.nextModel, w.nextModel);
    IdsKeptAfter(t.keys, v.keys, channel, KeyNames(detail.keys), keys, KeyUpdate(), t.nextKey, v.nextKey);
    IdsKeptAfter(v.models, w.models, channel, detail.models, models, ModelUpdate(), v.nextModel, w.nextModel);
  }

  lemma ThenGrants(w: Tables, u: Tables, channel: int, detail: Detail, rows: seq<Row<GrantRef, bv8>>)
    requires Intact(w) && NamesAre(w.keys, channel, KeyNames(detail.keys)) && NamesAre(w.models, channel, detail.models)
    requires DistinctPairs(detail.grants) && GrantsSynced(w, u, channel, detail.grants, rows)
    ensures Holds(u, channel, detail)
  {
    forall model, key, protocols
      ensures HasGrant(u, channel, model, key, protocols) <==> GrantInput(model, key, protocols) in detail.grants
    {
      GrantsAfter(w, u, channel, detail.grants, rows, model, key, protocols);
    }
  }

  lemma AllGrantable(t: Tables, channel: int, detail: Detail)
    requires NamesAre(t.keys, channel, KeyNames(detail.keys)) && NamesAre(t.models, channel, detail.models)
    ensures (forall i :: 0 <= i < |detail.grants| ==> Grantable(t, channel, detail.grants[i])) <==>
      (forall i :: 0 <= i < |detail.grants| ==>
        NamesSubmitted(detail, detail.grants[i]) && ProtocolsOk(detail.grants[i].protocols))
  {
    forall i | 0 <= i < |detail.grants|
      ensures Grantable(t, channel, detail.grants[i]) <==>
        NamesSubmitted(detail, detail.grants[i]) && ProtocolsOk(detail.grants[i].protocols)
    {
      GrantableExactly(t, channel, detail, i);
    }
  }

  /** What a write to one channel leaves alone, and that no id is given out twice. */
  predicate RowApart<V(==)>(before: map<int, Row<Named, V>>, after: map<int, Row<Named, V>>, channel: int, id: int) {
    && (id in before && before[id].ref.channel != channel ==> id in after && after[id] == before[id])
    && (id in after && after[id].ref.channel != channel ==> id in before)
    && (id in before && id in after ==> after[id].ref == before[id].ref)
  }

  ghost predicate OnlyChannel(t: Tables, u: Tables, channel: int) {
    && t.nextKey <= u.nextKey && t.nextModel <= u.nextModel
    && (forall id :: id in u.keys && id !in t.keys ==> t.nextKey <= id)
    && (forall id :: RowApart(t.keys, u.keys, channel, id))
    && (forall id :: RowApart(t.models, u.models, channel, id))
    && (forall id :: id in u.models && id !in t.models ==> t.nextModel <= id)
    && (forall id :: id in t.grants && InOther(t, channel, id) ==> id in u.grants && u.grants[id] == t.grants[id])
    && (forall id :: id in u.grants && InOther(u, channel, id) ==> id in t.grants && u.grants[id] == t.grants[id])
  }

  predicate InOther(t: Tables, channel: int, id: int) {
    id in t.grants && t.grants[id].ref.model in t.models && t.models[t.grants[id].ref.model].ref.channel != channel
  }

  lemma OnlyChannelTwice(t: Tables, v: Tables, u: Tables, channel: int)
    requires Intact(t) && Intact(v) && Intact(u) && OnlyChannel(t, v, channel) && OnlyChannel(v, u, channel)
    ensures OnlyChannel(t, u, channel)
  {
    forall id ensures RowApart(t.keys, u.keys, channel, id) && RowApart(t.models, u.models, channel, id) {
      assert RowApart(t.keys, v.keys, channel, id) && RowApart(v.keys, u.keys, channel, id);
      assert RowApart(t.models, v.models, channel, id) && RowApart(v.models, u.models, channel, id);
    }
    forall id | id in t.grants && InOther(t, channel, id) ensures id in u.grants && u.grants[id] == t.grants[id] {
      assert RowApart(t.models, v.models, channel, t.grants[id].ref.model);
      assert InOther(v, channel, id);
    }
    forall id | id in u.grants && InOther(u, channel, id) ensures id in t.grants && u.grants[id] == t.grants[id] {
      assert RowApart(v.models, u.models, channel, u.grants[id].ref.model);
      assert InOther(v, channel, id);
    }
  }

  lemma RowsApart<V>(rows: map<int, Row<Named, V>>, after: map<int, Row<Named, V>>, channel: int,
      asked: seq<Row<Named, V>>, merge: (V, V) -> V, next: int, next': int)
    requires Reconciled(rows, after, OfChannel(channel), asked, merge, next, next')
    requires forall i :: 0 <= i < |asked| ==> asked[i].ref.channel == channel
    ensures forall id :: RowApart(rows, after, channel, id) && (id in after && id !in rows ==> next <= id)
  {
    forall id ensures RowApart(rows, after, channel, id) && (id in after && id !in rows ==> next <= id) {
      RefsStay(rows, after, channel, asked, merge, next, next', id);
      assert IdFits(rows, after, OfChannel(channel), asked, merge, next, next', id);
    }
  }

  lemma SameRowsApart<V>(rows: map<int, Row<Named, V>>, channel: int)
    ensures forall id :: RowApart(rows, rows, channel, id)
  {
  }

  /** Grants of other channels have both their key and their model outside. */
  lemma OthersSurvive(t: Tables, keys: set<int>, models: set<int>, channel: int)
    requires Intact(t)
    requires forall k :: k in t.keys && t.keys[k].ref.channel != channel ==> k in keys
    requires forall m :: m in t.models && t.models[m].ref.channel != channel ==> m in models
    ensures forall id :: InOther(t, channel, id) ==> id in GrantsAmong(t, keys, models)
  {
    forall id | InOther(t, channel, id) ensures id in GrantsAmong(t, keys, models) {
      assert GrantSound(t, id);
    }
  }

  lemma KeysOnlyChannel(t: Tables, u: Tables, channel: int, inputs: seq<KeyInput>)
    requires Intact(t) && KeysSynced(t, u, channel, inputs)
    ensures OnlyChannel(t, u, channel)
  {
    RowsApart(t.keys, u.keys, channel, KeyRows(channel, inputs), KeyUpdate(), t.nextKey, u.nextKey);
    SameRowsApart(t.models, channel);
    forall k | k in t.keys && t.keys[k].ref.channel != channel ensures k in u.keys {
      assert RowApart(t.keys, u.keys, channel, k);
    }
    OthersSurvive(t, u.keys.Keys, t.models.Keys, channel);
  }

  lemma ModelsOnlyChannel(t: Tables, u: Tables, channel: int, names: seq<string>)
    requires Intact(t) && ModelsSynced(t, u, channel, names)
    ensures OnlyChannel(t, u, channel)
  {
    RowsApart(t.models, u.models, channel, ModelRows(channel, names), ModelUpdate(), t.nextModel, u.nextModel);
    SameRowsApart(t.keys, channel);
    forall m | m in t.models && t.models[m].ref.channel != channel ensures m in u.models {
      assert RowApart(t.models, u.models, channel, m);
    }
    OthersSurvive(t, t.keys.Keys, u.models.Keys, channel);
  }

  lemma GrantsOnlyChannel(t: Tables, u: Tables, channel: int, inputs: seq<GrantInput>, rows: seq<Row<GrantRef, bv8>>)
    requires Intact(t) && GrantsSynced(t, u, channel, inputs, rows)
    ensures OnlyChannel(t, u, channel)
  {
    SameRowsApart(t.keys, channel);
    SameRowsApart(t.models, channel);
    forall id | id in t.grants && InOther(t, channel, id) ensures id in u.grants && u.grants[id] == t.grants[id] {
      assert IdFits(t.grants, u.grants, OfModels(t.models, channel), rows, GrantUpdate(), t.nextGrant, u.nextGrant, id);
    }
    forall id | id in u.grants && InOther(u, channel, id) ensures id in t.grants && u.grants[id] == t.grants[id] {
      assert IdFits(t.grants, u.grants, OfModels(t.models, channel), rows, GrantUpdate(), t.nextGrant, u.nextGrant, id);
      AskedOwnGrant(t, channel, inputs, rows, u.grants[id].ref);
    }
  }

  lemma AskedOwnGrant(t: Tables, channel: int, inputs: seq<GrantInput>, rows: seq<Row<GrantRef, bv8>>, ref: GrantRef)
    requires AllResolve(t, channel, inputs, rows)
    ensures Asked(rows, ref).Some? ==> ref.model in t.models && t.models[ref.model].ref.channel == channel
  {
    AskedFacts(rows);
    if Asked(rows, ref).Some? {
      var i :| 0 <= i < |rows| && rows[i].ref == ref;
      assert ResolvesTo(t, channel, inputs[i], rows[i]);
    }
  }

  // ---------- Row by row over the whole write ----------

  ghost predicate KeyWritten(t: Tables, u: Tables, channel: int, inputs: seq<KeyInput>, id: int) {
    && (id in t.keys && id in u.keys && t.keys[id].ref.channel == channel ==>
          exists i :: 0 <= i < |inputs| && KeyRewritten(t.keys[id], u.keys[id], inputs[i]))
    && (id in u.keys && id !in t.keys ==>
          exists i :: 0 <= i < |inputs| && KeyEntered(u.keys[id], channel, inputs[i]))
  }

  /** A model that stays is untouched, counters included; a new one is submitted and starts without any. */
  predicate ModelWritten(t: Tables, u: Tables, channel: int, names: seq<string>, id: int) {
    && (id in t.models && id in u.models ==> u.models[id] == t.models[id])
    && (id in u.models && id !in t.models ==>
          u.models[id].ref.channel == channel && u.models[id].ref.name in names && u.models[id].value == 0)
  }

  predicate PairSubmitted(inputs: seq<GrantInput>, model: string, key: string) {
    exists i :: 0 <= i < |inputs| && inputs[i].modelName == model && inputs[i].keyName == key
  }

  /** A grant of the channel. */
  predicate OwnGrant(t: Tables, channel: int, id: int) {
    id in t.grants && t.grants[id].ref.model in t.models && t.models[t.grants[id].ref.model].ref.channel == channel
  }

  /** A grant of the channel stays exactly when its model and its key were submitted together, under its id. */
  predicate GrantKept(t: Tables, u: Tables, channel: int, inputs: seq<GrantInput>, id: int) {
    OwnGrant(t, channel, id) && t.grants[id].ref.key in t.keys ==>
      var ref := t.grants[id].ref;
      && (id in u.grants <==> PairSubmitted(inputs, t.models[ref.model].ref.name, t.keys[ref.key].ref.name))
      && (id in u.grants ==> u.grants[id].ref == ref)
  }

  lemma NamedStays<V>(rows: map<int, Row<Named, V>>, after: map<int, Row<Named, V>>, channel: int, names: seq<string>,
      asked: seq<Row<Named, V>>, merge: (V, V) -> V, next: int, next': int, id: int)
    requires Reconciled(rows, after, OfChannel(channel), asked, merge, next, next')
    requires |asked| == |names| && forall i :: 0 <= i < |names| ==> asked[i].ref == Named(channel, names[i])
    requires id in rows && rows[id].ref.channel == channel
    ensures id in after <==> rows[id].ref.name in names
    ensures id in after ==> after[id].ref == rows[id].ref
  {
    AskedFacts(asked);
    assert IdFits(rows, after, OfChannel(channel), asked, merge, next, next', id);
    if i :| 0 <= i < |names| && names[i] == rows[id].ref.name {
      assert asked[i].ref == rows[id].ref;
    }
  }

  /** Through the first two steps a grant stays with its key and its model. */
  lemma GrantThroughNames(t: Tables, v: Tables, w: Tables, channel: int, detail: Detail, id: int)
    requires Intact(t) && Intact(v) && OwnGrant(t, channel, id)
    requires KeysSynced(t, v, channel, detail.keys) && ModelsSynced(v, w, channel, detail.models)
    ensures var ref := t.grants[id].ref; ref.model in t.models && ref.key in t.keys
    ensures var ref := t.grants[id].ref;
      && (id in w.grants <==>
        t.keys[ref.key].ref.name in KeyNames(detail.keys) && t.models[ref.model].ref.name in detail.models)
      && (id in w.grants ==>
            && w.grants[id] == t.grants[id] && ref.model in w.models && ref.key in w.keys
            && w.models[ref.model].ref == t.models[ref.model].ref && w.keys[ref.key].ref == t.keys[ref.key].ref)
  {
    assert GrantSound(t, id);
    var ref := t.grants[id].ref;
    NamedStays(t.keys, v.keys, channel, KeyNames(detail.keys), KeyRows(channel, detail.keys), KeyUpdate(), t.nextKey,
      v.nextKey, ref.key);
    NamedStays(v.models, w.models, channel, detail.models, ModelRows(channel, detail.models), ModelUpdate(),
      v.nextModel, w.nextModel, ref.model);
  }

  /** Through the last step it stays when its names were submitted as a pair. */
  lemma GrantThroughPairs(w: Tables, u: Tables, channel: int, inputs: seq<GrantInput>, rows: seq<Row<GrantRef, bv8>>,
      id: int)
    requires Intact(w) && DistinctPairs(inputs) && GrantsSynced(w, u, channel, inputs, rows) && OwnGrant(w, channel, id)
    ensures w.grants[id].ref.key in w.keys && GrantKept(w, u, channel, inputs, id)
  {
    assert GrantSound(w, id);
    var ref := w.grants[id].ref;
    AskedFacts(rows);
    assert IdFits(w.grants, u.grants, OfModels(w.models, channel), rows, GrantUpdate(), w.nextGrant, u.nextGrant, id);
    if i :|
      0 <= i < |inputs| && inputs[i].modelName == w.models[ref.model].ref.name
      && inputs[i].keyName == w.keys[ref.key].ref.name
    {
      assert ResolvesTo(w, channel, inputs[i], rows[i]);
      assert rows[i].ref == ref;
    }
    if i :| 0 <= i < |rows| && rows[i].ref == ref {
      assert ResolvesTo(w, channel, inputs[i], rows[i]);
    }
  }

  lemma GrantThroughAll(t: Tables, v: Tables, w: Tables, u: Tables, channel: int, detail: Detail,
      rows: seq<Row<GrantRef, bv8>>, id: int)
    requires Intact(t) && Intact(v) && Intact(w) && Acceptable(detail)
    requires KeysSynced(t, v, channel, detail.keys) && ModelsSynced(v, w, channel, detail.models)
    requires GrantsSynced(w, u, channel, detail.grants, rows)
    ensures GrantKept(t, u, channel, detail.grants, id)
  {
    if OwnGrant(t, channel, id) {
      GrantThroughNames(t, v, w, channel, detail, id);
      var ref := t.grants[id].ref;
      if id in w.grants {
        GrantThroughPairs(w, u, channel, detail.grants, rows, id);
      } else {
        GrantGone(t, w, u, channel, detail, rows, id);
      }
    }
  }

  lemma GrantGone(t: Tables, w: Tables, u: Tables, channel: int, detail: Detail, rows: seq<Row<GrantRef, bv8>>, id: int)
    requires Intact(t) && Acceptable(detail) && GrantsSynced(w, u, channel, detail.grants, rows)
    requires w.nextGrant == t.nextGrant
    requires OwnGrant(t, channel, id) && id !in w.grants
    requires t.grants[id].ref.key in t.keys
    requires !(t.keys[t.grants[id].ref.key].ref.name in KeyNames(detail.keys)
      && t.models[t.grants[id].ref.model].ref.name in detail.models)
    ensures GrantKept(t, u, channel, detail.grants, id)
  {
    var ref := t.grants[id].ref;
    assert IdFits(w.grants, u.grants, OfModels(w.models, channel), rows, GrantUpdate(), w.nextGrant, u.nextGrant, id);
    forall i | 0 <= i < |detail.grants|
      ensures detail.grants[i].modelName in detail.models && detail.grants[i].keyName in KeyNames(detail.keys)
    {
      assert NamesSubmitted(detail, detail.grants[i]);
      var k :| 0 <= k < |detail.keys| && detail.keys[k].name == detail.grants[i].keyName;
      assert KeyNames(detail.keys)[k] == detail.grants[i].keyName;
    }
  }

  lemma KeyThroughAll(t: Tables, v: Tables, channel: int, inputs: seq<KeyInput>, id: int)
    requires KeysSynced(t, v, channel, inputs) && NoRepeat(KeyNames(inputs))
    ensures KeyWritten(t, v, channel, inputs, id)
  {
    if id in t.keys && id in v.keys && t.keys[id].ref.channel == channel {
      NamedStays(t.keys, v.keys, channel, KeyNames(inputs), KeyRows(channel, inputs), KeyUpdate(), t.nextKey, v.nextKey,
        id);
      var i :| 0 <= i < |inputs| && KeyNames(inputs)[i] == t.keys[id].ref.name;
      KeyAfter(t, v, channel, inputs, id, i);
      assert KeyRewritten(t.keys[id], v.keys[id], inputs[i]);
    }
    if id in v.keys && id !in t.keys {
      var i := KeyIsNew(t, v, channel, inputs, id);
    }
  }

  lemma ModelThroughAll(t: Tables, w: Tables, channel: int, names: seq<string>, id: int)
    requires ModelsSynced(t, w, channel, names)
    ensures ModelWritten(t, w, channel, names, id)
  {
    var rows := ModelRows(channel, names);
    AskedFacts(rows);
    assert IdFits(t.models, w.models, OfChannel(channel), rows, ModelUpdate(), t.nextModel, w.nextModel, id);
    if id in w.models && id !in t.models {
      assert Asked(rows, w.models[id].ref).Some?;
      var i :| 0 <= i < |rows| && rows[i].ref == w.models[id].ref;
      AskedZero(rows, w.models[id].ref);
    }
  }

  lemma {:induction false} AskedZero(rows: seq<Row<Named, int>>, ref: Named)
    requires Asked(rows, ref).Some? && forall i :: 0 <= i < |rows| ==> rows[i].value == 0
    ensures Asked(rows, ref) == Some(0)
  {
    if rows[|rows| - 1].ref != ref {
      AskedZero(rows[..|rows| - 1], ref);
    }
  }

  /** The channel holds what was submitted and nothing else, what was submitted again keeps its id, its
      counters and its grants, and other channels keep everything. */
  ghost predicate ChildrenWritten(t: Tables, u: Tables, channel: int, detail: Detail) {
    && Holds(u, channel, detail) && OnlyChannel(t, u, channel)
    && IdsKept(t.keys, u.keys, channel, KeyNames(detail.keys)) && IdsKept(t.models, u.models, channel, detail.models)
    && (forall id :: KeyWritten(t, u, channel, detail.keys, id))
    && (forall id :: ModelWritten(t, u, channel, detail.models, id))
    && (forall id :: GrantKept(t, u, channel, detail.grants, id))
  }

  lemma AllWritten(t: Tables, v: Tables, w: Tables, u: Tables, channel: int, detail: Detail,
      rows: seq<Row<GrantRef, bv8>>)
    requires Intact(t) && Intact(v) && Intact(w) && Intact(u) && Acceptable(detail)
    requires KeysSynced(t, v, channel, detail.keys) && ModelsSynced(v, w, channel, detail.models)
    requires GrantsSynced(w, u, channel, detail.grants, rows)
    ensures ChildrenWritten(t, u, channel, detail)
  {
    KeysThenModels(t, v, w, channel, detail);
    KeysOnlyChannel(t, v, channel, detail.keys);
    ModelsOnlyChannel(v, w, channel, detail.models);
    GrantsOnlyChannel(w, u, channel, detail.grants, rows);
    OnlyChannelTwice(t, v, w, channel);
    OnlyChannelTwice(t, w, u, channel);
    ThenGrants(w, u, channel, detail, rows);
    forall id ensures KeyWritten(t, u, channel, detail.keys, id) {
      KeyThroughAll(t, v, channel, detail.keys, id);
    }
    forall id ensures ModelWritten(t, u, channel, detail.models, id) {
      ModelThroughAll(v, w, channel, detail.models, id);
    }
    forall id ensures GrantKept(t, u, channel, detail.grants, id) {
      GrantThroughAll(t, v, w, u, channel, detail, rows, id);
    }
  }

  /** Replaces keys, models and grants of a channel, in that order, in one transaction. */
  method SyncChannelChildren(t: Tables, channel: int, detail: Detail) returns (ok: bool, u: Tables)
    requires Intact(t) && channel in t.channels
    ensures ok <==> Acceptable(detail)
    ensures ok ==> Intact(u) && Followed(t, u) && ChildrenWritten(t, u, channel, detail) && u.channels == t.channels
  {
    var v, w, rows;
    ok, v := SyncChannelKeys(t, channel, detail.keys);
    if !ok {
      return false, t;
    }
    ok, w := SyncChannelModels(v, channel, detail.models);
    if !ok {
      return false, t;
    }
    KeysThenModels(t, v, w, channel, detail);
    AllGrantable(w, channel, detail);
    ok, u, rows := SyncChannelGrants(w, channel, detail.grants);
    if ok {
      FollowedTwice(t, v, w);
      FollowedTwice(t, w, u);
      AllWritten(t, v, w, u, channel, detail, rows);
    }
  }

  // ---------- Deleting a channel ----------

  function KeysOutside(t: Tables, channel: int): map<int, Row<Named, KeyColumns>> {
    map id | id in t.keys && t.keys[id].ref.channel != channel :: t.keys[id]
  }

  function ModelsOutside(t: Tables, channel: int): map<int, Row<Named, int>> {
    map id | id in t.models && t.models[id].ref.channel != channel :: t.models[id]
  }

  /** The tables without a channel and what the database deletes along: keys, models, their grants, and
      the items of those, whose choice is cleared. */
  function WithoutChannel(t: Tables, channel: int): Tables {
    var keys, models := KeysOutside(t, channel), ModelsOutside(t, channel);
    WithGrants(t, GrantsAmong(t, keys.Keys, models.Keys), t.nextGrant)
      .(keys := keys, models := models, channels := t.channels - {channel})
  }

  /** Clears the choice of every item that refers to one of the grants. */
  function ActiveCleared(t: Tables, grants: set<int>): Tables {
    t.(groups := Released(t.groups, ItemsOfGrants(t, grants)))
  }

  /** What the database itself does when a channel row is deleted: keys and models go along, grants with
      either of them, and items with their grant. A choice is no foreign key. */
  function Cascaded(t: Tables, channel: int): Tables {
    var keys, models := KeysOutside(t, channel), ModelsOutside(t, channel);
    var grants := GrantsAmong(t, keys.Keys, models.Keys);
    t.(channels := t.channels - {channel}, keys := keys, models := models, grants := grants,
       items := t.items - ItemsOfGrants(t, t.grants.Keys - grants.Keys))
  }

  /** Clearing the choices of the grants of the channel first leaves none that the cascade would break. */
  lemma ClearedThenCascaded(t: Tables, channel: int, grants: set<int>)
    requires Intact(t)
    requires forall id :: id in grants <==>
      id in t.grants && t.grants[id].ref.model in t.models && t.models[t.grants[id].ref.model].ref.channel == channel
    ensures Cascaded(ActiveCleared(t, grants), channel) == WithoutChannel(t, channel)
  {
    var left := GrantsAmong(t, KeysOutside(t, channel).Keys, ModelsOutside(t, channel).Keys);
    forall id ensures id in grants <==> id in t.grants.Keys - left.Keys {
      assert GrantSound(t, id);
    }
    assert grants == t.grants.Keys - left.Keys;
  }

  /** Of the grants exactly those of other channels' models are left. */
  lemma GrantsOutside(t: Tables, channel: int)
    requires Intact(t)
    ensures forall id :: id in t.grants ==>
      (id in WithoutChannel(t, channel).grants <==>
         t.grants[id].ref.model in t.models && t.models[t.grants[id].ref.model].ref.channel != channel)
  {
    forall id | id in t.grants
      ensures id in WithoutChannel(t, channel).grants <==>
        t.grants[id].ref.model in t.models && t.models[t.grants[id].ref.model].ref.channel != channel
    {
      assert GrantSound(t, id);
    }
  }

  /** A channel is gone with its keys, its models and their grants, and nothing of any other channel is. */
  ghost predicate ChannelGone(t: Tables, u: Tables, channel: int) {
    && u.channels == t.channels - {channel}
    && (forall id :: id in u.keys <==> id in t.keys && t.keys[id].ref.channel != channel)
    && (forall id :: id in u.keys ==> u.keys[id] == t.keys[id])
    && (forall id :: id in u.models <==> id in t.models && t.models[id].ref.channel != channel)
    && (forall id :: id in u.models ==> u.models[id] == t.models[id])
    && (forall id :: id in u.grants <==> InOther(t, channel, id))
    && (forall id :: id in u.grants ==> u.grants[id] == t.grants[id])
    && Followed(t, u)
  }

  lemma WithoutChannelInFull(t: Tables, channel: int)
    requires Intact(t)
    ensures ChannelGone(t, WithoutChannel(t, channel), channel)
  {
    WithoutChannelIntact(t, channel);
    var u := WithoutChannel(t, channel);
    forall id ensures id in u.grants <==> InOther(t, channel, id) {
      assert GrantSound(t, id);
    }
  }

  lemma WithoutChannelIntact(t: Tables, channel: int)
    requires Intact(t)
    ensures Intact(WithoutChannel(t, channel)) && Followed(t, WithoutChannel(t, channel))
    ensures forall id :: id in t.grants ==>
      (id in WithoutChannel(t, channel).grants <==>
         t.grants[id].ref.model in t.models && t.models[t.grants[id].ref.model].ref.channel != channel)
  {
    var keys, models := KeysOutside(t, channel), ModelsOutside(t, channel);
    var v := WithGrants(t, GrantsAmong(t, keys.Keys, models.Keys), t.nextGrant);
    FallIntact(t, keys.Keys, models.Keys);
    KeysAndModelsGo(t, v, channel);
    ChannelRowGoes(t, v.(keys := keys, models := models), channel);
    GrantsOutside(t, channel);
  }

  lemma KeysAndModelsGo(t: Tables, v: Tables, channel: int)
    requires Intact(t) && Intact(v) && Followed(t, v) && v.keys == t.keys && v.models == t.models
    requires v.grants == GrantsAmong(t, KeysOutside(t, channel).Keys, ModelsOutside(t, channel).Keys)
    ensures var w := v.(keys := KeysOutside(t, channel), models := ModelsOutside(t, channel));
      Intact(w) && Followed(t, w)
  {
    var w := v.(keys := KeysOutside(t, channel), models := ModelsOutside(t, channel));
    forall id ensures GrantSound(w, id) {
      assert GrantSound(t, id);
    }
    OnlyKeysAndModels(t, v, w);
  }

  lemma ChannelRowGoes(t: Tables, v: Tables, channel: int)
    requires Intact(v) && Followed(t, v)
    requires forall id :: id in v.keys ==> v.keys[id].ref.channel != channel
    requires forall id :: id in v.models ==> v.models[id].ref.channel != channel
    ensures var u := v.(channels := v.channels - {channel}); Intact(u) && Followed(t, u)
  {
    var u := v.(channels := v.channels - {channel});
    forall id ensures ItemSound(u, id) && GrantSound(u, id) {
      assert ItemSound(v, id) && GrantSound(v, id);
    }
    forall g ensures ActiveSound(u, g) {
      assert ActiveSound(v, g);
    }
    forall id ensures ItemFollows(t, u, id) {
      assert ItemFollows(t, v, id);
    }
    forall g ensures ChoiceFollows(t, u, g) {
      assert ChoiceFollows(t, v, g);
    }
  }
}
