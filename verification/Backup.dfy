/** Filtering a backup: rows whose parents are gone are dropped layer by layer before the child
    tables are written. What is kept is proved to be the largest part of the dump that can stand. A
    dumped channel or group counts as a parent here even when its own insert was skipped; what that
    does to the import is the subject of `BackupImport`. */
module Backup {
  import opened Common

  /** A row: its primary key, 0 for none yet, and the other columns. */
  datatype Row<T> = Row(id: int, cols: T)

  /** The columns of a channel or a group; the name is unique. */
  datatype Named = Named(name: string, body: string)

  /** The columns of a key or a model of a channel; the name is unique in the channel. */
  datatype Child = Child(channel: int, name: string, body: string)

  /** The columns of a grant: a model used with a key, at most once. */
  datatype Pair = Pair(model: int, key: int, body: string)

  /** The columns of a group item: a grant or a child group. */
  datatype Member = Member(group: int, grant: Option<int>, child: Option<int>)

  /** The rows of an API key's statistics have the id of the API key. */
  datatype Tables = Tables(
    channels: seq<Row<Named>>, keys: seq<Row<Child>>, models: seq<Row<Child>>, grants: seq<Row<Pair>>,
    groups: seq<Row<Named>>, items: seq<Row<Member>>, apiKeys: seq<Row<string>>, stats: seq<Row<string>>)

  /** The primary keys already in the database. */
  datatype Existing = Existing(channels: set<int>, keys: set<int>, models: set<int>, grants: set<int>, groups: set<int>,
      apiKeys: set<int>)

  // ---------- Which ids can be referred to ----------

  /** Primary keys of dumped rows; a row without one (0) cannot be referred to. */
  function IdsOf<T>(rows: seq<Row<T>>): set<int> {
    set i | 0 <= i < |rows| && rows[i].id != 0 :: rows[i].id
  }

  function ChannelIds(t: Tables, e: Existing): set<int> { IdsOf(t.channels) + e.channels }
  function KeyIds(t: Tables, e: Existing): set<int> { IdsOf(t.keys) + e.keys }
  function ModelIds(t: Tables, e: Existing): set<int> { IdsOf(t.models) + e.models }
  function GrantIds(t: Tables, e: Existing): set<int> { IdsOf(t.grants) + e.grants }
  function GroupIds(t: Tables, e: Existing): set<int> { IdsOf(t.groups) + e.groups }
  function ApiKeyIds(t: Tables, e: Existing): set<int> { IdsOf(t.apiKeys) + e.apiKeys }

  predicate ChildStands(t: Tables, e: Existing, r: Row<Child>) { r.cols.channel in ChannelIds(t, e) }
  predicate GrantStands(t: Tables, e: Existing, r: Row<Pair>) {
    r.cols.model in ModelIds(t, e) && r.cols.key in KeyIds(t, e)
  }
  predicate ItemStands(t: Tables, e: Existing, r: Row<Member>) {
    && r.cols.group in GroupIds(t, e)
    && (r.cols.grant.Some? ==> r.cols.grant.value in GrantIds(t, e))
    && (r.cols.child.Some? ==> r.cols.child.value in GroupIds(t, e))
  }
  predicate StatsStands(t: Tables, e: Existing, r: Row<string>) { r.id in ApiKeyIds(t, e) }

  // The same as functions of the row alone.
  function ChildOk(t: Tables, e: Existing): Row<Child> -> bool { r => ChildStands(t, e, r) }
  function GrantOk(t: Tables, e: Existing): Row<Pair> -> bool { r => GrantStands(t, e, r) }
  function ItemOk(t: Tables, e: Existing): Row<Member> -> bool { r => ItemStands(t, e, r) }
  function StatsOk(t: Tables, e: Existing): Row<string> -> bool { r => StatsStands(t, e, r) }

  /** Every reference of the dump hits a row of the dump or of the database. */
  ghost predicate Closed(t: Tables, e: Existing) {
    && (forall r :: r in t.keys ==> ChildStands(t, e, r))
    && (forall r :: r in t.models ==> ChildStands(t, e, r))
    && (forall r :: r in t.grants ==> GrantStands(t, e, r))
    && (forall r :: r in t.items ==> ItemStands(t, e, r))
    && (forall r :: r in t.stats ==> StatsStands(t, e, r))
  }

  /** Every row of `s` is a row of `t`. */
  ghost predicate Within(s: Tables, t: Tables) {
    && (forall r :: r in s.channels ==> r in t.channels) && (forall r :: r in s.groups ==> r in t.groups)
    && (forall r :: r in s.keys ==> r in t.keys) && (forall r :: r in s.models ==> r in t.models)
    && (forall r :: r in s.grants ==> r in t.grants) && (forall r :: r in s.items ==> r in t.items)
    && (forall r :: r in s.apiKeys ==> r in t.apiKeys) && (forall r :: r in s.stats ==> r in t.stats)
  }

  // ---------- Filtering ----------

  /** The rows that pass, in their order. */
  function Keep<T>(rows: seq<Row<T>>, ok: Row<T> -> bool): seq<Row<T>> {
    if rows == [] then []
    else Keep(rows[..|rows| - 1], ok) + if ok(rows[|rows| - 1]) then [rows[|rows| - 1]] else []
  }

  lemma {:induction false} KeepMembers<T>(rows: seq<Row<T>>, ok: Row<T> -> bool)
    ensures forall r :: r in Keep(rows, ok) ==> r in rows
    ensures forall r :: r in Keep(rows, ok) ==> ok(r)
    ensures forall r :: r in rows && ok(r) ==> r in Keep(rows, ok)
  {
    if rows != [] {
      KeepMembers(rows[..|rows| - 1], ok);
      assert rows == rows[..|rows| - 1] + [rows[|rows| - 1]];
    }
  }

  /** `s` arises from `t` by leaving entries out. */
  predicate Subsequence<T(==)>(s: seq<T>, t: seq<T>) {
    s == [] ||
    (t != [] && (Subsequence(s, t[..|t| - 1]) || (s[|s| - 1] == t[|t| - 1] && Subsequence(s[..|s| - 1], t[..|t| - 1]))))
  }

  lemma {:induction false} KeepInOrder<T>(rows: seq<Row<T>>, ok: Row<T> -> bool)
    ensures Subsequence(Keep(rows, ok), rows)
  {
    if rows != [] {
      var before := Keep(rows[..|rows| - 1], ok);
      KeepInOrder(rows[..|rows| - 1], ok);
      if ok(rows[|rows| - 1]) {
        assert Keep(rows, ok)[..|before|] == before;
      } else {
        assert Keep(rows, ok) == before;
      }
    }
  }

  // The filters of the five child tables, each against the layers above as they are after their own filter.

  function AfterKeysAndModels(t: Tables, e: Existing): Tables {
    t.(keys := Keep(t.keys, ChildOk(t, e)), models := Keep(t.models, ChildOk(t, e)))
  }

  function AfterGrants(t: Tables, e: Existing): Tables {
    var t1 := AfterKeysAndModels(t, e);
    t1.(grants := Keep(t1.grants, GrantOk(t1, e)))
  }

  function AfterItems(t: Tables, e: Existing): Tables {
    var t2 := AfterGrants(t, e);
    t2.(items := Keep(t2.items, ItemOk(t2, e)))
  }

  function Sanitized(t: Tables, e: Existing): Tables {
    var t3 := AfterItems(t, e);
    t3.(stats := Keep(t3.stats, StatsOk(t3, e)))
  }

  // ---------- The result is the greatest part that can stand ----------

  lemma IdsOfMonotone<T>(s: seq<Row<T>>, t: seq<Row<T>>)
    requires forall r :: r in s ==> r in t
    ensures IdsOf(s) <= IdsOf(t)
  {
    forall x | x in IdsOf(s) ensures x in IdsOf(t) {
      var i :| 0 <= i < |s| && s[i].id == x && x != 0;
      assert s[i] in t;
    }
  }

  /** What is kept is part of the dump and has no dangling reference. */
  lemma SanitizedStands(t: Tables, e: Existing)
    ensures Within(Sanitized(t, e), t) && Closed(Sanitized(t, e), e)
  {
    var t1, t2, t3 := AfterKeysAndModels(t, e), AfterGrants(t, e), AfterItems(t, e);
    KeepMembers(t.keys, ChildOk(t, e));
    KeepMembers(t.models, ChildOk(t, e));
    KeepMembers(t.grants, GrantOk(t1, e));
    KeepMembers(t.items, ItemOk(t2, e));
    KeepMembers(t.stats, StatsOk(t3, e));
  }

  /** What is kept comes in the dump's order, and the parent tables are left alone. */
  lemma SanitizedInOrder(t: Tables, e: Existing)
    ensures var s := Sanitized(t, e);
      && s.channels == t.channels && s.groups == t.groups && s.apiKeys == t.apiKeys
      && Subsequence(s.keys, t.keys) && Subsequence(s.models, t.models) && Subsequence(s.grants, t.grants)
      && Subsequence(s.items, t.items) && Subsequence(s.stats, t.stats)
  {
    var t1, t2, t3 := AfterKeysAndModels(t, e), AfterGrants(t, e), AfterItems(t, e);
    KeepInOrder(t.keys, ChildOk(t, e));
    KeepInOrder(t.models, ChildOk(t, e));
    KeepInOrder(t.grants, GrantOk(t1, e));
    KeepInOrder(t.items, ItemOk(t2, e));
    KeepInOrder(t.stats, StatsOk(t3, e));
  }

  /** Any part of the dump that can stand on its own is kept, row by row. */
  lemma SanitizedIsGreatest(s: Tables, t: Tables, e: Existing)
    requires Within(s, t) && Closed(s, e)
    ensures Within(s, Sanitized(t, e))
  {
    var t1, t2, t3 := AfterKeysAndModels(t, e), AfterGrants(t, e), AfterItems(t, e);
    IdsOfMonotone(s.channels, t.channels);
    IdsOfMonotone(s.groups, t.groups);
    IdsOfMonotone(s.apiKeys, t.apiKeys);
    KeepMembers(t.keys, ChildOk(t, e));
    KeepMembers(t.models, ChildOk(t, e));
    IdsOfMonotone(s.keys, t1.keys);
    IdsOfMonotone(s.models, t1.models);
    KeepMembers(t.grants, GrantOk(t1, e));
    IdsOfMonotone(s.grants, t2.grants);
    KeepMembers(t.items, ItemOk(t2, e));
    KeepMembers(t.stats, StatsOk(t3, e));
  }

  /** The id is that of a row of the list, or there already. */
  predicate Hits<T(==)>(rows: seq<Row<T>>, existing: set<int>, id: int) {
    id in existing || (id != 0 && exists r :: r in rows && r.id == id)
  }

  lemma HitsExactly<T>(rows: seq<Row<T>>, existing: set<int>, id: int)
    ensures Hits(rows, existing, id) <==> id in IdsOf(rows) + existing
  {
    if id !in existing && Hits(rows, existing, id) {
      var r :| r in rows && r.id == id;
      var i :| 0 <= i < |rows| && rows[i] == r;
      assert rows[i].id != 0;
    }
    if i :| 0 <= i < |rows| && rows[i].id == id && id != 0 {
      assert rows[i] in rows;
    }
  }

  /** Which keys, models and statistics are kept, by the rows of the dump and what is there. */
  lemma ChildrenKeptExactly(t: Tables, e: Existing)
    ensures forall r :: r in t.keys ==> (r in Sanitized(t, e).keys <==> Hits(t.channels, e.channels, r.cols.channel))
    ensures forall r :: r in t.models ==>
      (r in Sanitized(t, e).models <==> Hits(t.channels, e.channels, r.cols.channel))
    ensures forall r :: r in t.stats ==> (r in Sanitized(t, e).stats <==> Hits(t.apiKeys, e.apiKeys, r.id))
  {
    KeepMembers(t.keys, ChildOk(t, e));
    KeepMembers(t.models, ChildOk(t, e));
    KeepMembers(t.stats, StatsOk(AfterItems(t, e), e));
    forall id { HitsExactly(t.channels, e.channels, id); }
    forall id { HitsExactly(t.apiKeys, e.apiKeys, id); }
  }

  /** Which grants: both sides are kept, or there already. */
  lemma GrantsKeptExactly(t: Tables, e: Existing)
    ensures var s := Sanitized(t, e);
      forall r :: r in t.grants ==>
        (r in s.grants <==> Hits(s.models, e.models, r.cols.model) && Hits(s.keys, e.keys, r.cols.key))
  {
    var s, t1 := Sanitized(t, e), AfterKeysAndModels(t, e);
    KeepMembers(t.grants, GrantOk(t1, e));
    forall id { HitsExactly(s.models, e.models, id); }
    forall id { HitsExactly(s.keys, e.keys, id); }
  }

  /** Which items: the group is dumped or there, and so is what the item refers to, a grant if it is kept. */
  lemma ItemsKeptExactly(t: Tables, e: Existing)
    ensures var s := Sanitized(t, e);
      forall r :: r in t.items ==>
        (r in s.items <==>
          && Hits(t.groups, e.groups, r.cols.group)
          && (r.cols.grant.Some? ==> Hits(s.grants, e.grants, r.cols.grant.value))
          && (r.cols.child.Some? ==> Hits(t.groups, e.groups, r.cols.child.value)))
  {
    var s, t2 := Sanitized(t, e), AfterGrants(t, e);
    KeepMembers(t.items, ItemOk(t2, e));
    forall id { HitsExactly(t.groups, e.groups, id); }
    forall id { HitsExactly(s.grants, e.grants, id); }
  }

  // ---------- The filter as it runs ----------

  datatype Skipped = Skipped(keys: nat, models: nat, grants: nat, items: nat, stats: nat)

  /** Keeps the rows that pass and counts the others. */
  method Filter<T>(rows: seq<Row<T>>, ok: Row<T> -> bool) returns (kept: seq<Row<T>>, skipped: nat)
    ensures kept == Keep(rows, ok) && |kept| + skipped == |rows|
  {
    kept, skipped := [], 0;
    for i := 0 to |rows|
      invariant kept == Keep(rows[..i], ok) && |kept| + skipped == i
    {
      assert rows[..i + 1][..i] == rows[..i];
      if ok(rows[i]) {
        kept := kept + [rows[i]];
      } else {
        skipped := skipped + 1;
      }
    }
    assert rows[..|rows|] == rows;
  }

  class Dump {
    var t: Tables

    constructor (t: Tables)
      ensures this.t == t
    {
      this.t := t;
    }

    /** Replaces the child tables of the dump by what is kept of them; for each table kept and
        skipped rows add up to what was there. */
    method SanitizeOrphanRows(e: Existing) returns (skipped: Skipped)
      modifies this
      ensures t == Sanitized(old(t), e)
      ensures |t.keys| + skipped.keys == |old(t).keys| && |t.models| + skipped.models == |old(t).models|
      ensures |t.grants| + skipped.grants == |old(t).grants| && |t.items| + skipped.items == |old(t).items|
      ensures |t.stats| + skipped.stats == |old(t).stats|
    {
      var t0 := t;
      var keys, skippedKeys := Filter(t.keys, ChildOk(t0, e));
      var models, skippedModels := Filter(t.models, ChildOk(t0, e));
      t := t.(keys := keys, models := models);
      var t1 := t;
      var grants, skippedGrants := Filter(t.grants, GrantOk(t1, e));
      t := t.(grants := grants);
      var t2 := t;
      var items, skippedItems := Filter(t.items, ItemOk(t2, e));
      t := t.(items := items);
      var t3 := t;
      var stats, skippedStats := Filter(t.stats, StatsOk(t3, e));
      t := t.(stats := stats);
      return Skipped(skippedKeys, skippedModels, skippedGrants, skippedItems, skippedStats);
    }
  }
}
