/** The in-memory copies of channel keys, models and grants, and reloading those of one channel after
    it was written. What a lookup returns is shown to be what the tables hold, although the reload
    leaves grants behind that the tables no longer have. */
module ChannelCache {
  import opened Common
  import opened Reconcile
  import opened Database
  import opened ChannelSync

  // ---------- Looking a grant up ----------

  /** A grant with its model and key, ready to be used. */
  datatype Route = Route(grant: Row<GrantRef, bv8>, model: Row<Named, int>, key: Row<Named, KeyColumns>)

  function Find(keys: map<int, Row<Named, KeyColumns>>, models: map<int, Row<Named, int>>,
      grants: map<int, Row<GrantRef, bv8>>, id: int): Option<Route> {
    if id !in grants then None
    else
      var ref := grants[id].ref;
      if ref.model in models && ref.key in keys && keys[ref.key].value.enabled
      then Some(Route(grants[id], models[ref.model], keys[ref.key]))
      else None
  }

  /** A route without the counters, which the caches hold more recent values of. */
  function Plain(route: Option<Route>): Option<Route> {
    if route.None? then None
    else
      var r := route.value;
      Some(Route(r.grant, r.model.(value := 0), r.key.(value := r.key.value.(stats := 0))))
  }

  /** The grant is stored, its model too, and its key is stored and enabled. */
  predicate Usable(t: Tables, id: int) {
    && id in t.grants && t.grants[id].ref.model in t.models && t.grants[id].ref.key in t.keys
    && t.keys[t.grants[id].ref.key].value.enabled
  }

  /** A route for a grant, by the tables: there is one exactly when the grant can be used, and it has the stored
      grant, the name and channel of its model, and the name, channel and columns of its key. */
  predicate RouteRight(route: Option<Route>, t: Tables, id: int) {
    && (route.Some? <==> Usable(t, id))
    && (route.Some? && Usable(t, id) ==>
          var r, ref := route.value, t.grants[id].ref;
          && r.grant == t.grants[id] && r.model.ref == t.models[ref.model].ref && r.key.ref == t.keys[ref.key].ref
          && r.key.value.secret == t.keys[ref.key].value.secret
          && r.key.value.proxyNode == t.keys[ref.key].value.proxyNode
          && r.key.value.operatorDisabled == t.keys[ref.key].value.operatorDisabled && r.key.value.enabled)
  }

  // ---------- What ties the caches to the tables ----------

  function NoKeyStats(): KeyColumns -> KeyColumns { (k: KeyColumns) => k.(stats := 0) }

  function NoModelStats(): int -> int { (stats: int) => 0 }

  predicate SameUpTo<V(==)>(cached: map<int, Row<Named, V>>, stored: map<int, Row<Named, V>>, forget: V -> V, id: int) {
    && (id in cached <==> id in stored)
    && (id in cached && id in stored ==>
          cached[id].ref == stored[id].ref && forget(cached[id].value) == forget(stored[id].value))
  }

  /** A grant of the tables is cached; a cached grant they do not have is one of a model they do not
      have, and will not have again. */
  predicate GrantTied(grants: map<int, Row<GrantRef, bv8>>, t: Tables, id: int) {
    && (id in t.grants ==> id in grants && grants[id] == t.grants[id])
    && (id in grants && id !in t.grants ==> grants[id].ref.model !in t.models && grants[id].ref.model < t.nextModel)
  }

  ghost predicate Tied(keys: map<int, Row<Named, KeyColumns>>, models: map<int, Row<Named, int>>,
      grants: map<int, Row<GrantRef, bv8>>, t: Tables) {
    && (forall id :: SameUpTo(keys, t.keys, NoKeyStats(), id))
    && (forall id :: SameUpTo(models, t.models, NoModelStats(), id))
    && (forall id :: GrantTied(grants, t, id))
  }

  /** A lookup in the caches returns what a lookup in the tables would, for every id there is. */
  lemma LookupAgrees(keys: map<int, Row<Named, KeyColumns>>, models: map<int, Row<Named, int>>,
      grants: map<int, Row<GrantRef, bv8>>, t: Tables, id: int)
    requires Tied(keys, models, grants, t)
    ensures Plain(Find(keys, models, grants, id)) == Plain(Find(t.keys, t.models, t.grants, id))
    ensures RouteRight(Find(keys, models, grants, id), t, id)
  {
    assert GrantTied(grants, t, id);
    if id in grants {
      var ref := grants[id].ref;
      assert SameUpTo(models, t.models, NoModelStats(), ref.model) && SameUpTo(keys, t.keys, NoKeyStats(), ref.key);
      if ref.key in keys && ref.key in t.keys {
        assert NoKeyStats()(keys[ref.key].value) == NoKeyStats()(t.keys[ref.key].value);
      }
    }
  }

  // ---------- Reloading ----------

  /** A row after the reload: the stored one with the cached counters, for the channel; as it was, for
      any other; gone, when the channel has it no more. */
  predicate RowReloaded<V(==)>(cached: map<int, Row<Named, V>>, stored: map<int, Row<Named, V>>,
      after: map<int, Row<Named, V>>, channel: int, carry: (V, V) -> V, id: int) {
    if id in stored && stored[id].ref.channel == channel then
      id in after && after[id] ==
        Row(stored[id].ref, if id in cached then carry(cached[id].value, stored[id].value) else stored[id].value)
    else if id in cached && cached[id].ref.channel != channel then id in after && after[id] == cached[id]
    else id !in after
  }

  function KeyCarry(): (KeyColumns, KeyColumns) -> KeyColumns {
    (cached: KeyColumns, stored: KeyColumns) => stored.(stats := cached.stats)
  }

  function ModelCarry(): (int, int) -> int { (cached: int, stored: int) => cached }

  /** After the reload a key of the channel has the stored columns, and the counters it had in the cache, or the
      stored ones when it was not there. */
  predicate KeyCounted(cached: map<int, Row<Named, KeyColumns>>, t: Tables, after: map<int, Row<Named, KeyColumns>>,
      channel: int, id: int) {
    id in t.keys && t.keys[id].ref.channel == channel ==>
      && id in after && after[id].ref == t.keys[id].ref
      && after[id].value.secret == t.keys[id].value.secret && after[id].value.enabled == t.keys[id].value.enabled
      && after[id].value.proxyNode == t.keys[id].value.proxyNode
      && (id in cached ==> after[id].value.stats == cached[id].value.stats)
      && (id !in cached ==> after[id].value.stats == t.keys[id].value.stats)
  }

  predicate ModelCounted(cached: map<int, Row<Named, int>>, t: Tables, after: map<int, Row<Named, int>>, channel: int,
      id: int) {
    id in t.models && t.models[id].ref.channel == channel ==>
      && id in after && after[id].ref == t.models[id].ref
      && after[id].value == if id in cached then cached[id].value else t.models[id].value
  }

  /** The ids a query for the rows of a channel returns, in whatever order. */
  ghost predicate IsQuery<V>(stored: map<int, Row<Named, V>>, channel: int, ids: seq<int>) {
    forall id :: id in ids <==> id in stored && stored[id].ref.channel == channel
  }

  /** One such order: by primary key. */
  function QueryRows<V>(stored: map<int, Row<Named, V>>, channel: int, next: int): seq<int>
    decreases next
  {
    if next <= 0 then []
    else
      var id, init := next - 1, QueryRows(stored, channel, next - 1);
      if id in stored && stored[id].ref.channel == channel then init + [id] else init
  }

  lemma {:induction false} QueryRowsFacts<V>(stored: map<int, Row<Named, V>>, channel: int, next: int)
    ensures forall id :: id in QueryRows(stored, channel, next) <==>
      0 <= id < next && id in stored && stored[id].ref.channel == channel
    ensures NoRepeat(QueryRows(stored, channel, next))
    decreases next
  {
    if next > 0 {
      QueryRowsFacts(stored, channel, next - 1);
      var init, ids := QueryRows(stored, channel, next - 1), QueryRows(stored, channel, next);
      forall i, j | 0 <= i < j < |ids| ensures ids[i] != ids[j] {
        assert ids[i] == init[i] && init[i] in init;
      }
    }
  }

  /** Writes the channel's stored rows over the cached ones, then drops what it no longer has. */
  method ReloadRows<V(==)>(cached: map<int, Row<Named, V>>, stored: map<int, Row<Named, V>>, channel: int,
      ids: seq<int>, carry: (V, V) -> V) returns (after: map<int, Row<Named, V>>)
    requires IsQuery(stored, channel, ids) && NoRepeat(ids)
    ensures forall id :: RowReloaded(cached, stored, after, channel, carry, id)
  {
    after := cached;
    for k := 0 to |ids|
      invariant forall id :: id in after <==> id in cached || id in ids[..k]
      invariant forall id :: id in ids[..k] ==>
        after[id] == Row(stored[id].ref,
          if id in cached then carry(cached[id].value, stored[id].value) else stored[id].value)
      invariant forall id :: id in after && id !in ids[..k] ==> after[id] == cached[id]
    {
      var id := ids[k];
      assert id in ids && id !in ids[..k];
      assert ids[..k + 1] == ids[..k] + [id];
      var row := stored[id];
      if id in after {
        row := row.(value := carry(after[id].value, row.value));
      }
      after := after[id := row];
    }
    assert ids[..|ids|] == ids;
    after := map id | id in after && !(after[id].ref.channel == channel && id !in ids) :: after[id];
  }

  /** Ids of the cached grants whose model is cached as one of the channel. */
  function GrantIDs(models: map<int, Row<Named, int>>, grants: map<int, Row<GrantRef, bv8>>, channel: int): set<int> {
    set id | id in grants && grants[id].ref.model in models && models[grants[id].ref.model].ref.channel == channel
  }

  function StoredGrants(t: Tables, channel: int): map<int, Row<GrantRef, bv8>> {
    map id | id in t.grants && t.grants[id].ref.model in t.models
      && t.models[t.grants[id].ref.model].ref.channel == channel :: t.grants[id]
  }

  /** The cached ids of a channel's grants are those of the tables: left-over grants have no cached model. */
  lemma GrantIDsExactly(keys: map<int, Row<Named, KeyColumns>>, models: map<int, Row<Named, int>>,
      grants: map<int, Row<GrantRef, bv8>>, t: Tables, channel: int)
    requires Tied(keys, models, grants, t)
    ensures GrantIDs(models, grants, channel) == StoredGrants(t, channel).Keys
  {
    forall id ensures id in GrantIDs(models, grants, channel) <==> id in StoredGrants(t, channel).Keys {
      assert GrantTied(grants, t, id);
      if id in grants {
        assert SameUpTo(models, t.models, NoModelStats(), grants[id].ref.model);
      }
    }
  }

  class Caches {
    var channelKeyCache: map<int, Row<Named, KeyColumns>>
    var channelModelCache: map<int, Row<Named, int>>
    var channelGrantCache: map<int, Row<GrantRef, bv8>>

    constructor ()
      ensures InStep(EMPTY)
    {
      channelKeyCache, channelModelCache, channelGrantCache := map[], map[], map[];
      new;
      forall id ensures GrantTied(channelGrantCache, EMPTY, id) {
      }
    }

    ghost predicate InStep(t: Tables)
      reads this
    {
      Tied(channelKeyCache, channelModelCache, channelGrantCache, t)
    }

    /** The caches return for a grant what the tables hold. */
    predicate FindsAsIn(t: Tables, id: int)
      reads this
    {
      RouteRight(Find(channelKeyCache, channelModelCache, channelGrantCache, id), t, id)
    }

    /** Reloads one channel. Rows that stay keep their cached counters, other channels' entries are not
        touched, and cached grants go by the models as they are cached now. */
    method ReloadChannelChildren(t: Tables, channel: int, keyIDs: seq<int>, modelIDs: seq<int>)
      requires IsQuery(t.keys, channel, keyIDs) && NoRepeat(keyIDs)
      requires IsQuery(t.models, channel, modelIDs) && NoRepeat(modelIDs)
      modifies this
      ensures forall id :: RowReloaded(old(channelKeyCache), t.keys, channelKeyCache, channel, KeyCarry(), id)
      ensures forall id :: RowReloaded(old(channelModelCache), t.models, channelModelCache, channel, ModelCarry(), id)
      ensures channelGrantCache ==
        (old(channelGrantCache) - GrantIDs(channelModelCache, old(channelGrantCache), channel))
          + StoredGrants(t, channel)
      ensures forall s: Tables :: Intact(s) && Intact(t) && OnlyChannel(s, t, channel) && old(InStep(s)) ==> InStep(t)
      ensures forall id :: KeyCounted(old(channelKeyCache), t, channelKeyCache, channel, id)
      ensures forall id :: ModelCounted(old(channelModelCache), t, channelModelCache, channel, id)
    {
      var grants := StoredGrants(t, channel);
      channelKeyCache := ReloadRows(channelKeyCache, t.keys, channel, keyIDs, KeyCarry());
      channelModelCache := ReloadRows(channelModelCache, t.models, channel, modelIDs, ModelCarry());
      channelGrantCache := channelGrantCache - GrantIDs(channelModelCache, channelGrantCache, channel);
      channelGrantCache := channelGrantCache + grants;
      CountersKept(old(channelKeyCache), old(channelModelCache), t, channelKeyCache, channelModelCache, channel);
      forall s: Tables | Intact(s) && Intact(t) && OnlyChannel(s, t, channel) && old(InStep(s)) ensures InStep(t) {
        ReloadTies(old(channelKeyCache), old(channelModelCache), old(channelGrantCache),
                   channelKeyCache, channelModelCache, channelGrantCache, s, t, channel);
      }
    }

    /** The ids of a channel's grants, by the caches. */
    method ChannelGrantIDs(channel: int) returns (ids: set<int>)
      ensures ids == GrantIDs(channelModelCache, channelGrantCache, channel)
      ensures forall t: Tables :: InStep(t) ==> ids == StoredGrants(t, channel).Keys
    {
      ids := GrantIDs(channelModelCache, channelGrantCache, channel);
      forall t: Tables | InStep(t) ensures ids == StoredGrants(t, channel).Keys {
        GrantIDsExactly(channelKeyCache, channelModelCache, channelGrantCache, t, channel);
      }
    }

    /** What is left of a channel in the caches when it is deleted: nothing. The grants to go were looked
        up before the models are. */
    method ForgetChannel(channel: int, gone: set<int>)
      requires gone == GrantIDs(channelModelCache, channelGrantCache, channel)
      modifies this
      ensures forall s: Tables :: Intact(s) && old(InStep(s)) ==> InStep(WithoutChannel(s, channel))
    {
      channelKeyCache :=
        map id | id in channelKeyCache && channelKeyCache[id].ref.channel != channel :: channelKeyCache[id];
      channelModelCache :=
        map id | id in channelModelCache && channelModelCache[id].ref.channel != channel :: channelModelCache[id];
      channelGrantCache := channelGrantCache - gone;
      forall s: Tables | Intact(s) && old(InStep(s)) ensures InStep(WithoutChannel(s, channel)) {
        ForgetTies(old(channelKeyCache), old(channelModelCache), old(channelGrantCache),
                   channelKeyCache, channelModelCache, channelGrantCache, s, channel);
      }
    }

    method ChannelGrantGet(id: int) returns (route: Option<Route>)
      ensures route == Find(channelKeyCache, channelModelCache, channelGrantCache, id)
      ensures forall t: Tables :: InStep(t) ==> RouteRight(route, t, id)
    {
      forall t: Tables | InStep(t)
        ensures RouteRight(Find(channelKeyCache, channelModelCache, channelGrantCache, id), t, id)
      {
        LookupAgrees(channelKeyCache, channelModelCache, channelGrantCache, t, id);
      }
      if id !in channelGrantCache {
        return None;
      }
      var grant := channelGrantCache[id];
      if grant.ref.model !in channelModelCache || grant.ref.key !in channelKeyCache {
        return None;
      }
      var channelKey := channelKeyCache[grant.ref.key];
      if !channelKey.value.enabled {
        return None;
      }
      return Some(Route(grant, channelModelCache[grant.ref.model], channelKey));
    }
  }

  /** Groups and items are nothing the caches hold. */
  lemma TiedStill(keys: map<int, Row<Named, KeyColumns>>, models: map<int, Row<Named, int>>,
      grants: map<int, Row<GrantRef, bv8>>, t: Tables, u: Tables)
    requires Tied(keys, models, grants, t)
    requires u.keys == t.keys && u.models == t.models && u.grants == t.grants && u.nextModel == t.nextModel
    ensures Tied(keys, models, grants, u)
  {
    forall id ensures GrantTied(grants, u, id) {
      assert GrantTied(grants, t, id);
    }
  }

  // ---------- The reload ties the caches to the tables again ----------

  lemma RowTied<V>(cached: map<int, Row<Named, V>>, after: map<int, Row<Named, V>>, before: map<int, Row<Named, V>>,
      stored: map<int, Row<Named, V>>, channel: int, carry: (V, V) -> V, forget: V -> V, id: int)
    requires SameUpTo(cached, before, forget, id) && RowApart(before, stored, channel, id)
    requires RowReloaded(cached, stored, after, channel, carry, id)
    requires id in cached && id in stored ==>
      forget(carry(cached[id].value, stored[id].value)) == forget(stored[id].value)
    ensures SameUpTo(after, stored, forget, id)
  {
  }

  /** Rows that are still stored keep their cached counters and have the stored columns otherwise. */
  lemma CountersKept(keys: map<int, Row<Named, KeyColumns>>, models: map<int, Row<Named, int>>, t: Tables,
      keys': map<int, Row<Named, KeyColumns>>, models': map<int, Row<Named, int>>, channel: int)
    requires forall id :: RowReloaded(keys, t.keys, keys', channel, KeyCarry(), id)
    requires forall id :: RowReloaded(models, t.models, models', channel, ModelCarry(), id)
    ensures forall id :: KeyCounted(keys, t, keys', channel, id)
    ensures forall id :: ModelCounted(models, t, models', channel, id)
  {
    forall id ensures KeyCounted(keys, t, keys', channel, id) {
      assert RowReloaded(keys, t.keys, keys', channel, KeyCarry(), id);
    }
    forall id ensures ModelCounted(models, t, models', channel, id) {
      assert RowReloaded(models, t.models, models', channel, ModelCarry(), id);
    }
  }

  /** The caches were tied to `s`, the channel was written, `t` is what the tables hold now. */
  lemma ReloadTies(keys: map<int, Row<Named, KeyColumns>>, models: map<int, Row<Named, int>>,
      grants: map<int, Row<GrantRef, bv8>>, keys': map<int, Row<Named, KeyColumns>>, models': map<int, Row<Named, int>>,
      grants': map<int, Row<GrantRef, bv8>>, s: Tables, t: Tables, channel: int)
    requires Intact(s) && Intact(t) && Tied(keys, models, grants, s) && OnlyChannel(s, t, channel)
    requires forall id :: RowReloaded(keys, t.keys, keys', channel, KeyCarry(), id)
    requires forall id :: RowReloaded(models, t.models, models', channel, ModelCarry(), id)
    requires grants' == (grants - GrantIDs(models', grants, channel)) + StoredGrants(t, channel)
    ensures Tied(keys', models', grants', t)
  {
    forall id ensures SameUpTo(keys', t.keys, NoKeyStats(), id) {
      assert SameUpTo(keys, s.keys, NoKeyStats(), id) && RowApart(s.keys, t.keys, channel, id);
      RowTied(keys, keys', s.keys, t.keys, channel, KeyCarry(), NoKeyStats(), id);
    }
    forall id ensures SameUpTo(models', t.models, NoModelStats(), id) {
      assert SameUpTo(models, s.models, NoModelStats(), id) && RowApart(s.models, t.models, channel, id);
      RowTied(models, models', s.models, t.models, channel, ModelCarry(), NoModelStats(), id);
    }
    forall id ensures GrantTied(grants', t, id) {
      ReloadTiesGrant(models, grants, models', grants', s, t, channel, id);
    }
  }

  lemma ReloadTiesGrant(models: map<int, Row<Named, int>>, grants: map<int, Row<GrantRef, bv8>>,
      models': map<int, Row<Named, int>>, grants': map<int, Row<GrantRef, bv8>>, s: Tables, t: Tables, channel: int,
        id: int)
    requires Intact(s) && Intact(t) && OnlyChannel(s, t, channel) && GrantTied(grants, s, id)
    requires forall m :: SameUpTo(models', t.models, NoModelStats(), m)
    requires grants' == (grants - GrantIDs(models', grants, channel)) + StoredGrants(t, channel)
    ensures GrantTied(grants', t, id)
  {
    assert GrantSound(s, id) && GrantSound(t, id);
    if id in grants && id !in t.grants {
      var m := grants[id].ref.model;
      assert SameUpTo(models', t.models, NoModelStats(), m);
      assert RowApart(s.models, t.models, channel, m);
      assert id in s.grants ==> !InOther(s, channel, id);
    }
    if id in t.grants && InOther(t, channel, id) {
      var m := t.grants[id].ref.model;
      assert SameUpTo(models', t.models, NoModelStats(), m);
    }
  }

  /** Which grants outlive the reload although the tables have them no more: exactly those of a model that
      is gone, for by the time the grants are looked through its model is gone from the cache. */
  lemma LeftOverExactly(grants: map<int, Row<GrantRef, bv8>>, models': map<int, Row<Named, int>>,
      grants': map<int, Row<GrantRef, bv8>>, s: Tables, t: Tables, channel: int, id: int)
    requires Intact(s) && Intact(t) && OnlyChannel(s, t, channel) && GrantTied(grants, s, id) && id !in t.grants
    requires forall m :: SameUpTo(models', t.models, NoModelStats(), m)
    requires grants' == (grants - GrantIDs(models', grants, channel)) + StoredGrants(t, channel)
    ensures id in grants' <==> id in grants && grants[id].ref.model !in t.models
  {
    assert GrantSound(s, id);
    if id in grants {
      var m := grants[id].ref.model;
      assert SameUpTo(models', t.models, NoModelStats(), m);
      assert RowApart(s.models, t.models, channel, m);
      assert id in s.grants ==> !InOther(s, channel, id);
    }
  }

  lemma ForgetTies(keys: map<int, Row<Named, KeyColumns>>, models: map<int, Row<Named, int>>,
      grants: map<int, Row<GrantRef, bv8>>, keys': map<int, Row<Named, KeyColumns>>, models': map<int, Row<Named, int>>,
      grants': map<int, Row<GrantRef, bv8>>, s: Tables, channel: int)
    requires Intact(s) && Tied(keys, models, grants, s)
    requires keys' == map id | id in keys && keys[id].ref.channel != channel :: keys[id]
    requires models' == map id | id in models && models[id].ref.channel != channel :: models[id]
    requires grants' == grants - GrantIDs(models, grants, channel)
    ensures Tied(keys', models', grants', WithoutChannel(s, channel))
  {
    var t := WithoutChannel(s, channel);
    WithoutChannelIntact(s, channel);
    forall id ensures SameUpTo(keys', t.keys, NoKeyStats(), id) {
      assert SameUpTo(keys, s.keys, NoKeyStats(), id);
    }
    forall id ensures SameUpTo(models', t.models, NoModelStats(), id) {
      assert SameUpTo(models, s.models, NoModelStats(), id);
    }
    forall id ensures GrantTied(grants', t, id) {
      assert GrantTied(grants, s, id) && GrantSound(s, id);
      if id in grants {
        assert SameUpTo(models, s.models, NoModelStats(), grants[id].ref.model);
      }
    }
  }
}
