/** Importing the same dump again, into the database the first import left: it goes through and changes
    nothing exactly when every kept row comes in again as it is, which can be read off the rows. */
module BackupRepeat {
  import opened Common
  import opened Backup
  import opened BackupImport

  // ---------- Importing twice: one table ----------

  lemma {:induction false} IdleWhenConflicting<T>(t: Table<T>, rows: seq<Row<T>>, same: (T, T) -> bool,
      stands: T -> bool)
    requires forall r :: r in rows ==> Conflicts(t, r, same)
    ensures AddAll(t, rows, same, true) == t && Refusal(t, rows, same, stands, true) == None
  {
    if rows != [] {
      assert rows[|rows| - 1] in rows;
      IdleWhenConflicting(t, rows[..|rows| - 1], same, stands);
    }
  }

  /** A row that conflicts with itself once it is there: by its id, or by what it is unique by. */
  predicate Recognised<T>(r: Row<T>, same: (T, T) -> bool) { r.id != 0 || same(r.cols, r.cols) }

  lemma SkippingIsIdle<T>(t: Table<T>, rows: seq<Row<T>>, same: (T, T) -> bool, stands: T -> bool)
    requires Numbered(t) && forall r :: r in rows ==> Recognised(r, same)
    ensures var a := AddAll(t, rows, same, true);
      AddAll(a, rows, same, true) == a && Refusal(a, rows, same, stands, true) == None
  {
    forall r | r in rows ensures Conflicts(AddAll(t, rows, same, true), r, same) {
      AddAllConflicts(t, rows, same, r);
    }
    IdleWhenConflicting(AddAll(t, rows, same, true), rows, same, stands);
  }

  lemma {:induction false} NextGrows<T>(t: Table<T>, rows: seq<Row<T>>, same: (T, T) -> bool, doNothing: bool)
    ensures t.next <= AddAll(t, rows, same, doNothing).next
  {
    if rows != [] {
      NextGrows(t, rows[..|rows| - 1], same, doNothing);
    }
  }

  /** A row without an id that nothing is like is entered every time. */
  lemma {:induction false} RaisesNext<T(!new)>(t: Table<T>, rows: seq<Row<T>>, same: (T, T) -> bool, doNothing: bool,
      r: Row<T>)
    requires Numbered(t) && r in rows && r.id == 0 && (doNothing ==> forall x :: !same(x, r.cols))
    ensures t.next < AddAll(t, rows, same, doNothing).next
  {
    var init, last := rows[..|rows| - 1], rows[|rows| - 1];
    AddAllGrows(t, init, same, doNothing);
    NextGrows(t, init, same, doNothing);
    if r in init {
      RaisesNext(t, init, same, doNothing, r);
    } else {
      assert r == last;
    }
  }

  /** What the last row of an id says. */
  function LastAt<T>(rows: seq<Row<T>>, k: int): Option<T> {
    if rows == [] then None
    else if rows[|rows| - 1].id == k then Some(rows[|rows| - 1].cols)
    else LastAt(rows[..|rows| - 1], k)
  }

  /** An overwritten table holds, under each id, what the last row of it says. */
  lemma {:induction false} OverwrittenAt<T>(t: Table<T>, rows: seq<Row<T>>, same: (T, T) -> bool, k: int)
    requires HaveIds(rows)
    ensures var a := AddAll(t, rows, same, false);
      && (k in a.rows <==> k in t.rows || LastAt(rows, k).Some?)
      && (k in a.rows ==> a.rows[k] == if LastAt(rows, k).Some? then LastAt(rows, k).value else t.rows[k])
  {
    if rows != [] {
      OverwrittenAt(t, rows[..|rows| - 1], same, k);
    }
  }

  lemma {:induction false} NextBelow<T>(t: Table<T>, rows: seq<Row<T>>, same: (T, T) -> bool)
    requires forall i :: 0 <= i < |rows| ==> rows[i].id != 0 && rows[i].id < t.next
    ensures AddAll(t, rows, same, false).next == t.next
  {
    if rows != [] {
      NextBelow(t, rows[..|rows| - 1], same);
    }
  }

  /** Written over again, the table ends as it is. */
  lemma OverwritingEndsSame<T>(t: Table<T>, rows: seq<Row<T>>, same: (T, T) -> bool)
    requires Numbered(t) && HaveIds(rows)
    ensures var a := AddAll(t, rows, same, false); AddAll(a, rows, same, false) == a
  {
    var a := AddAll(t, rows, same, false);
    var b := AddAll(a, rows, same, false);
    forall k ensures (k in b.rows <==> k in a.rows) && (k in a.rows ==> b.rows[k] == a.rows[k]) {
      OverwrittenAt(t, rows, same, k);
      OverwrittenAt(a, rows, same, k);
    }
    WholePart(b, a);
    AddAllGrows(t, rows, same, false);
    AddAllHas(t, rows, same);
    forall i | 0 <= i < |rows| ensures rows[i].id < a.next {
      assert rows[i].id in IdsOf(rows);
    }
    NextBelow(a, rows, same);
  }

  /** Row `i` is not taken for one of another id that comes first behind it, as that one is in the end. */
  predicate ReplaysAt<T>(rows: seq<Row<T>>, same: (T, T) -> bool, i: nat, k: int)
    requires i < |rows|
  {
    k != rows[i].id && LastAt(rows[..i], k).None? && LastAt(rows, k).Some? ==>
      !same(LastAt(rows, k).value, rows[i].cols)
  }

  /** Written over again, no row of the list runs into the unique index. */
  ghost predicate Replayable<T>(rows: seq<Row<T>>, same: (T, T) -> bool) {
    forall i: nat, k :: i < |rows| ==> ReplaysAt(rows, same, i, k)
  }

  /** What an accepted list says row by row. */
  lemma {:induction false} AcceptedRow<T>(t: Table<T>, rows: seq<Row<T>>, same: (T, T) -> bool, stands: T -> bool,
      i: nat)
    requires Refusal(t, rows, same, stands, false) == None && i < |rows|
    ensures Check(AddAll(t, rows[..i], same, false), rows[i], same, stands, false) == None
  {
    if i < |rows| - 1 {
      assert rows[..|rows| - 1][..i] == rows[..i];
      AcceptedRow(t, rows[..|rows| - 1], same, stands, i);
    }
  }

  lemma {:induction false} AllAccepted<T>(t: Table<T>, rows: seq<Row<T>>, same: (T, T) -> bool, stands: T -> bool,
      n: nat)
    requires n <= |rows|
    requires forall i: nat :: i < n ==> Check(AddAll(t, rows[..i], same, false), rows[i], same, stands, false) == None
    ensures Refusal(t, rows[..n], same, stands, false) == None
  {
    if n > 0 {
      AllAccepted(t, rows, same, stands, n - 1);
      assert rows[..n][..n - 1] == rows[..n - 1];
    }
  }

  /** The row has what it is unique by from a row of another id. */
  predicate Duplicates<T>(t: Table<T>, r: Row<T>, same: (T, T) -> bool) {
    exists k :: k in t.rows && k != r.id && same(t.rows[k], r.cols)
  }

  lemma ReplayedAt<T>(t: Table<T>, rows: seq<Row<T>>, same: (T, T) -> bool, i: nat, k: int)
    requires HaveIds(rows) && i < |rows| && !Duplicates(AddAll(t, rows[..i], same, false), rows[i], same)
    ensures var twice := AddAll(AddAll(t, rows, same, false), rows[..i], same, false);
      (k in twice.rows && k != rows[i].id && same(twice.rows[k], rows[i].cols)) <==> !ReplaysAt(rows, same, i, k)
  {
    OverwrittenAt(t, rows, same, k);
    OverwrittenAt(t, rows[..i], same, k);
    OverwrittenAt(AddAll(t, rows, same, false), rows[..i], same, k);
    if LastAt(rows[..i], k).Some? {
      LastAtGrows(rows, i, k);
    }
  }

  /** Row `i` runs into the index the second time exactly when it does not replay. */
  lemma ReplayedRow<T>(t: Table<T>, rows: seq<Row<T>>, same: (T, T) -> bool, stands: T -> bool, i: nat)
    requires HaveIds(rows) && i < |rows| && Refusal(t, rows, same, stands, false) == None
    ensures Duplicates(AddAll(AddAll(t, rows, same, false), rows[..i], same, false), rows[i], same) <==>
      exists k :: !ReplaysAt(rows, same, i, k)
  {
    var twice := AddAll(AddAll(t, rows, same, false), rows[..i], same, false);
    AcceptedRow(t, rows, same, stands, i);
    if k :| k in twice.rows && k != rows[i].id && same(twice.rows[k], rows[i].cols) {
      ReplayedAt(t, rows, same, i, k);
    }
    if k :| !ReplaysAt(rows, same, i, k) {
      ReplayedAt(t, rows, same, i, k);
      assert k in twice.rows;
    }
  }

  /** An accepted list is accepted again, by the table it made, exactly when it replays. */
  lemma ReplayExactly<T>(t: Table<T>, rows: seq<Row<T>>, same: (T, T) -> bool, first: T -> bool, again: T -> bool)
    requires HaveIds(rows) && Refusal(t, rows, same, first, false) == None && forall r :: r in rows ==> again(r.cols)
    ensures Refusal(AddAll(t, rows, same, false), rows, same, again, false) == None <==> Replayable(rows, same)
  {
    var a := AddAll(t, rows, same, false);
    if Refusal(a, rows, same, again, false) == None {
      forall i: nat, k | i < |rows| ensures ReplaysAt(rows, same, i, k) {
        AcceptedRow(a, rows, same, again, i);
        ReplayedRow(t, rows, same, first, i);
      }
    }
    if Replayable(rows, same) {
      forall i: nat | i < |rows| ensures Check(AddAll(a, rows[..i], same, false), rows[i], same, again, false) == None {
        ReplayedRow(t, rows, same, first, i);
        assert rows[i] in rows;
      }
      AllAccepted(a, rows, same, again, |rows|);
      OneMore(rows, |rows|);
    }
  }

  lemma {:induction false} AcceptedStand<T>(t: Table<T>, rows: seq<Row<T>>, same: (T, T) -> bool, stands: T -> bool)
    requires Refusal(t, rows, same, stands, false) == None
    ensures forall r :: r in rows ==> stands(r.cols)
  {
    if rows != [] {
      assert rows == rows[..|rows| - 1] + [rows[|rows| - 1]];
      AcceptedStand(t, rows[..|rows| - 1], same, stands);
    }
  }

  /** With ids of their own the rows replay: they are all in the table, which has its index in order. */
  lemma KeyedReplays<T>(t: Table<T>, rows: seq<Row<T>>, same: (T, T) -> bool)
    requires Keyed(rows) && Unique(AddAll(t, rows, same, false), same)
    ensures Replayable(rows, same)
  {
    var a := AddAll(t, rows, same, false);
    forall i: nat, k | i < |rows| ensures ReplaysAt(rows, same, i, k) {
      if k != rows[i].id && LastAt(rows, k).Some? {
        OverwrittenAt(t, rows, same, k);
        OverwrittenAt(t, rows, same, rows[i].id);
        LastOfKeyed(rows, i);
      }
    }
  }

  lemma {:induction false} LastOfKeyed<T>(rows: seq<Row<T>>, i: nat)
    requires Keyed(rows) && i < |rows|
    ensures LastAt(rows, rows[i].id) == Some(rows[i].cols)
  {
    if i < |rows| - 1 {
      LastOfKeyed(rows[..|rows| - 1], i);
    }
  }

  lemma {:induction false} LastAtGrows<T>(rows: seq<Row<T>>, i: nat, k: int)
    requires i <= |rows| && LastAt(rows[..i], k).Some?
    ensures LastAt(rows, k).Some?
  {
    if i < |rows| {
      assert rows[..|rows| - 1][..i] == rows[..i];
      LastAtGrows(rows[..|rows| - 1], i, k);
    } else {
      assert rows[..i] == rows;
    }
  }

  // ---------- Importing twice: the whole dump ----------

  lemma {:induction false} KeepSame<T>(rows: seq<Row<T>>, p: Row<T> -> bool, q: Row<T> -> bool)
    requires forall r :: r in rows ==> p(r) == q(r)
    ensures Keep(rows, p) == Keep(rows, q)
  {
    if rows != [] {
      assert rows == rows[..|rows| - 1] + [rows[|rows| - 1]];
      KeepSame(rows[..|rows| - 1], p, q);
    }
  }

  lemma {:induction false} KeepKeyed<T>(rows: seq<Row<T>>, ok: Row<T> -> bool)
    requires Keyed(rows)
    ensures Keyed(Keep(rows, ok))
  {
    if rows != [] {
      var init, last := rows[..|rows| - 1], rows[|rows| - 1];
      assert rows == init + [last];
      KeepKeyed(init, ok);
      KeepMembers(init, ok);
      forall i | 0 <= i < |Keep(init, ok)| ensures Keep(init, ok)[i].id != last.id {
        assert Keep(init, ok)[i] in init;
      }
    }
  }

  predicate AllKeyed(t: Tables) {
    && Keyed(t.channels) && Keyed(t.keys) && Keyed(t.models) && Keyed(t.grants)
    && Keyed(t.groups) && Keyed(t.items) && Keyed(t.apiKeys) && Keyed(t.stats)
  }

  /** Rows of the filtered dump being there already makes no difference to the filter. */
  lemma FilteredAgain(t: Tables, e: Existing, more: Existing)
    requires more.channels == e.channels && more.groups == e.groups
    requires var s := Sanitized(t, e);
      && more.keys == e.keys + IdsOf(s.keys) && more.models == e.models + IdsOf(s.models)
      && more.grants == e.grants + IdsOf(s.grants) && more.apiKeys == e.apiKeys + IdsOf(s.apiKeys)
    ensures Sanitized(t, more) == Sanitized(t, e)
  {
    KeepSame(t.keys, ChildOk(t, e), ChildOk(t, more));
    KeepSame(t.models, ChildOk(t, e), ChildOk(t, more));
    var t1 := AfterKeysAndModels(t, e);
    assert AfterKeysAndModels(t, more) == t1;
    KeepSame(t1.grants, GrantOk(t1, e), GrantOk(t1, more));
    var t2 := AfterGrants(t, e);
    assert AfterGrants(t, more) == t2;
    KeepSame(t2.items, ItemOk(t2, e), ItemOk(t2, more));
    var t3 := AfterItems(t, e);
    assert AfterItems(t, more) == t3;
    KeepSame(t3.stats, StatsOk(t3, e), StatsOk(t3, more));
  }

  lemma KeysOf<T>(t: Table<T>, rows: seq<Row<T>>, same: (T, T) -> bool)
    requires HaveIds(rows)
    ensures AddAll(t, rows, same, false).rows.Keys == t.rows.Keys + IdsOf(rows)
  {
    AddAllGrows(t, rows, same, false);
    AddAllHas(t, rows, same);
    AddAllAdds(t, rows, same, false);
  }

  lemma ApiKeyIdsOf(t: Table<string>, rows: seq<Row<string>>)
    requires HaveIds(rows) && Numbered(t)
    ensures AddAll(t, rows, Never, true).rows.Keys == t.rows.Keys + IdsOf(rows)
  {
    AddAllGrows(t, rows, Never, true);
    AddAllAdds(t, rows, Never, true);
    forall x | x in IdsOf(rows) ensures x in AddAll(t, rows, Never, true).rows {
      var i :| 0 <= i < |rows| && rows[i].id == x;
      AddAllConflicts(t, rows, Never, rows[i]);
    }
  }

  /** The rows that come in again as they are: those of overwritten tables and API keys have ids, and
      those of overwritten tables replay; an item has an id or refers to something. */
  ghost predicate Repeatable(s: Tables) {
    && HaveIds(s.keys) && HaveIds(s.models) && HaveIds(s.grants) && HaveIds(s.apiKeys)
    && (forall r :: r in s.items ==> r.id != 0 || r.cols.grant.Some? || r.cols.child.Some?)
    && Replayable(s.keys, SameChild) && Replayable(s.models, SameChild) && Replayable(s.grants, SamePair)
  }

  /** Channels and groups are known by name, if not by id. */
  lemma ParentsIdle(db: Db, t: Tables, r: Db)
    requires AllNumbered(db) && r.channels == WithParents(db, t).channels && r.groups == WithParents(db, t).groups
    ensures WithParents(r, t) == r
  {
    SkippingIsIdle(db.channels, t.channels, SameName, Anything());
    SkippingIsIdle(db.groups, t.groups, SameName, Anything());
  }

  /** The filter keeps the same rows when they all have ids. */
  lemma KeptAgain(db: Db, t: Tables, s: Tables, r: Db)
    requires AllNumbered(db) && s == Kept(db, t) && r == WithRest(WithParents(db, t), s)
    requires HaveIds(s.keys) && HaveIds(s.models) && HaveIds(s.grants) && HaveIds(s.apiKeys)
    ensures Kept(r, t) == s
  {
    var db1 := WithParents(db, t);
    ParentsIdle(db, t, r);
    KeysOf(db1.keys, s.keys, SameChild);
    KeysOf(db1.models, s.models, SameChild);
    KeysOf(db1.grants, s.grants, SamePair);
    ApiKeyIdsOf(db1.apiKeys, s.apiKeys);
    FilteredAgain(t, ExistingIn(db1), ExistingIn(r));
  }

  lemma KeptStatsHaveIds(db: Db, t: Tables)
    requires AllNumbered(db)
    ensures HaveIds(Kept(db, t).stats)
  {
    var s, e := Kept(db, t), ExistingIn(WithParents(db, t));
    SanitizedStands(t, e);
    forall i | 0 <= i < |s.stats| ensures s.stats[i].id != 0 {
      assert StatsStands(s, e, s.stats[i]);
    }
  }

  /** Nothing but a refusal can come of writing the same rows again. */
  lemma RestEndsSame(db1: Db, s: Tables, r: Db)
    requires AllNumbered(db1) && r == WithRest(db1, s) && HaveIds(s.stats)
    requires HaveIds(s.keys) && HaveIds(s.models) && HaveIds(s.grants) && HaveIds(s.apiKeys)
    requires forall row :: row in s.items ==> row.id != 0 || row.cols.grant.Some? || row.cols.child.Some?
    ensures WithChildren(r, s) == r && WithGrants(r, s) == r && WithRest(r, s) == r
    ensures Refusal(r.items, s.items, SameMember, HasGroupAndGrant(r), true) == None
  {
    OverwritingEndsSame(db1.keys, s.keys, SameChild);
    OverwritingEndsSame(db1.models, s.models, SameChild);
    OverwritingEndsSame(db1.grants, s.grants, SamePair);
    SkippingIsIdle(db1.items, s.items, SameMember, HasGroupAndGrant(r));
    SkippingIsIdle(db1.apiKeys, s.apiKeys, Never, Anything());
    OverwritingEndsSame(db1.stats, s.stats, Never);
  }

  /** Whether they are refused is a matter of the unique indexes: no parent is missing any more. */
  lemma RefusedAgainExactly(db1: Db, s: Tables, r: Db)
    requires AllNumbered(db1) && r == WithRest(db1, s) && RestRefusal(db1, s) == None && WithChildren(r, s) == r
    requires WithGrants(r, s) == r
    requires HaveIds(s.keys) && HaveIds(s.models) && HaveIds(s.grants)
    requires Refusal(r.items, s.items, SameMember, HasGroupAndGrant(r), true) == None
    ensures RestRefusal(r, s) == None <==>
      Replayable(s.keys, SameChild) && Replayable(s.models, SameChild) && Replayable(s.grants, SamePair)
  {
    var db2 := WithChildren(db1, s);
    AcceptedStand(db1.keys, s.keys, SameChild, HasChannel(db1));
    AcceptedStand(db1.models, s.models, SameChild, HasChannel(db1));
    AcceptedStand(db1.grants, s.grants, SamePair, HasModelAndKey(db2));
    ReplayExactly(db1.keys, s.keys, SameChild, HasChannel(db1), HasChannel(r));
    ReplayExactly(db1.models, s.models, SameChild, HasChannel(db1), HasChannel(r));
    ReplayExactly(db1.grants, s.grants, SamePair, HasModelAndKey(db2), HasModelAndKey(r));
  }

  // ---------- A row without an id comes in again ----------

  lemma ClosedMore(s: Tables, e: Existing, more: Existing)
    requires Closed(s, e) && e.channels <= more.channels && e.keys <= more.keys && e.models <= more.models
    requires e.grants <= more.grants && e.groups <= more.groups && e.apiKeys <= more.apiKeys
    ensures Closed(s, more)
  {
    forall r | r in s.items ensures ItemStands(s, more, r) {
      assert ItemStands(s, e, r);
    }
    forall r | r in s.keys ensures ChildStands(s, more, r) { assert ChildStands(s, e, r); }
    forall r | r in s.models ensures ChildStands(s, more, r) { assert ChildStands(s, e, r); }
    forall r | r in s.grants ensures GrantStands(s, more, r) { assert GrantStands(s, e, r); }
    forall r | r in s.stats ensures StatsStands(s, more, r) { assert StatsStands(s, e, r); }
  }

  /** What was kept is kept again. */
  lemma KeptStays(db: Db, t: Tables, s: Tables, r: Db)
    requires AllNumbered(db) && s == Kept(db, t) && r == WithRest(WithParents(db, t), s)
    ensures Within(s, Kept(r, t))
  {
    var db1 := WithParents(db, t);
    ParentsIdle(db, t, r);
    SanitizedStands(t, ExistingIn(db1));
    AddAllGrows(db1.keys, s.keys, SameChild, false);
    AddAllGrows(db1.models, s.models, SameChild, false);
    AddAllGrows(db1.grants, s.grants, SamePair, false);
    AddAllGrows(db1.apiKeys, s.apiKeys, Never, true);
    ClosedMore(s, ExistingIn(db1), ExistingIn(r));
    SanitizedIsGreatest(s, t, ExistingIn(r));
  }

  /** A table that a list leaves as it is has no row in it that would be entered again. */
  lemma IdleMeansRecognised<T(!new)>(t: Table<T>, rows: seq<Row<T>>, again: seq<Row<T>>, same: (T, T) -> bool,
      doNothing: bool)
    requires Numbered(t) && AddAll(t, again, same, doNothing) == t && forall r :: r in rows ==> r in again
    ensures forall r :: r in rows && (doNothing ==> forall x :: !same(x, r.cols)) ==> r.id != 0
  {
    forall r | r in rows && (doNothing ==> forall x :: !same(x, r.cols)) ensures r.id != 0 {
      if r.id == 0 {
        RaisesNext(t, again, same, doNothing, r);
      }
    }
  }

  lemma TablesIdle(r: Db, s: Tables)
    requires WithRest(r, s) == r
    ensures AddAll(r.keys, s.keys, SameChild, false) == r.keys
    ensures AddAll(r.models, s.models, SameChild, false) == r.models
    ensures AddAll(r.grants, s.grants, SamePair, false) == r.grants
    ensures AddAll(r.items, s.items, SameMember, true) == r.items
    ensures AddAll(r.apiKeys, s.apiKeys, Never, true) == r.apiKeys
  {
  }

  lemma AllHaveIds<T>(rows: seq<Row<T>>)
    requires forall r :: r in rows ==> r.id != 0
    ensures HaveIds(rows)
  {
    forall i | 0 <= i < |rows| ensures rows[i].id != 0 {
      assert rows[i] in rows;
    }
  }

  lemma OverwrittenHaveIds<T(!new)>(t: Table<T>, rows: seq<Row<T>>, again: seq<Row<T>>, same: (T, T) -> bool)
    requires Numbered(t) && AddAll(t, again, same, false) == t && forall r :: r in rows ==> r in again
    ensures HaveIds(rows)
  {
    IdleMeansRecognised(t, rows, again, same, false);
    AllHaveIds(rows);
  }

  lemma ApiKeysHaveIds(t: Table<string>, rows: seq<Row<string>>, again: seq<Row<string>>)
    requires Numbered(t) && AddAll(t, again, Never, true) == t && forall r :: r in rows ==> r in again
    ensures HaveIds(rows)
  {
    IdleMeansRecognised(t, rows, again, Never, true);
    AllHaveIds(rows);
  }

  lemma ItemsRecognised(t: Table<Member>, rows: seq<Row<Member>>, again: seq<Row<Member>>)
    requires Numbered(t) && AddAll(t, again, SameMember, true) == t && forall r :: r in rows ==> r in again
    ensures forall r :: r in rows ==> r.id != 0 || r.cols.grant.Some? || r.cols.child.Some?
  {
    IdleMeansRecognised(t, rows, again, SameMember, true);
  }

  lemma IdleMeansIds(db: Db, t: Tables, s: Tables, r: Db)
    requires AllNumbered(db) && AllNumbered(r) && s == Kept(db, t) && r == WithRest(WithParents(db, t), s)
    requires Imported(r, t) == Done(r)
    ensures HaveIds(s.keys) && HaveIds(s.models) && HaveIds(s.grants) && HaveIds(s.apiKeys)
    ensures forall row :: row in s.items ==> row.id != 0 || row.cols.grant.Some? || row.cols.child.Some?
  {
    ParentsIdle(db, t, r);
    KeptStays(db, t, s, r);
    var s' := Kept(r, t);
    TablesIdle(r, s');
    OverwrittenHaveIds(r.keys, s.keys, s'.keys, SameChild);
    OverwrittenHaveIds(r.models, s.models, s'.models, SameChild);
    OverwrittenHaveIds(r.grants, s.grants, s'.grants, SamePair);
    ApiKeysHaveIds(r.apiKeys, s.apiKeys, s'.apiKeys);
    ItemsRecognised(r.items, s.items, s'.items);
  }

  /** Importing a dump a second time goes through and changes nothing at all, exactly when every kept row
      is one that comes in again as it is. */
  lemma SecondImportIsIdleExactly(db: Db, t: Tables)
    requires Sound(db) && Imported(db, t).Done?
    ensures Imported(Imported(db, t).db, t) == Imported(db, t) <==> Repeatable(Kept(db, t))
  {
    var db1, s, r := WithParents(db, t), Kept(db, t), Imported(db, t).db;
    ImportKeepsSound(db, t);
    ParentsKeepSound(db, t);
    ParentsIdle(db, t, r);
    if Imported(r, t) == Done(r) {
      IdleMeansIds(db, t, s, r);
    }
    if HaveIds(s.keys) && HaveIds(s.models) && HaveIds(s.grants) && HaveIds(s.apiKeys)
      && forall row :: row in s.items ==> row.id != 0 || row.cols.grant.Some? || row.cols.child.Some?
    {
      KeptAgain(db, t, s, r);
      KeptStatsHaveIds(db, t);
      RestEndsSame(db1, s, r);
      RefusedAgainExactly(db1, s, r);
    }
  }

  lemma KeptKeyed(t: Tables, e: Existing)
    requires AllKeyed(t)
    ensures AllKeyed(Sanitized(t, e))
  {
    KeepKeyed(t.keys, ChildOk(t, e));
    KeepKeyed(t.models, ChildOk(t, e));
    KeepKeyed(t.grants, GrantOk(AfterKeysAndModels(t, e), e));
    KeepKeyed(t.items, ItemOk(AfterGrants(t, e), e));
    KeepKeyed(t.stats, StatsOk(AfterItems(t, e), e));
  }

  /** So it is for a dump whose rows have ids of their own. */
  lemma KeyedIsRepeatable(db: Db, t: Tables)
    requires Sound(db) && AllKeyed(t) && Imported(db, t).Done?
    ensures Imported(Imported(db, t).db, t) == Imported(db, t)
  {
    var db1, s := WithParents(db, t), Kept(db, t);
    KeptKeyed(t, ExistingIn(db1));
    ImportKeepsSound(db, t);
    KeyedReplays(db1.keys, s.keys, SameChild);
    KeyedReplays(db1.models, s.models, SameChild);
    KeyedReplays(db1.grants, s.grants, SamePair);
    SecondImportIsIdleExactly(db, t);
  }

  /** One id twice, and its first name under another id behind: such rows go in once and never again. */
  lemma RepeatedIdDoesNotReplay(channel: int)
    ensures var rows :=
      [Row(1, Child(channel, "x", "")), Row(1, Child(channel, "z", "")), Row(2, Child(channel, "x", ""))];
      Refusal(Table(map[], 1), rows, SameChild, Anything(), false) == None && !Replayable(rows, SameChild)
  {
    var a, b, c := Row(1, Child(channel, "x", "")), Row(1, Child(channel, "z", "")), Row(2, Child(channel, "x", ""));
    assert [a, b, c][..2] == [a, b] && [a, b][..1] == [a] && [a][..0] == [] && [a, b, c][..0] == [];
    assert AddAll(Table(map[], 1), [a], SameChild, false).rows == map[1 := a.cols];
    assert AddAll(Table(map[], 1), [a, b], SameChild, false).rows == map[1 := b.cols];
    assert Refusal(Table(map[], 1), [a], SameChild, Anything(), false) == None;
    assert Refusal(Table(map[], 1), [a, b], SameChild, Anything(), false) == None;
    assert !ReplaysAt([a, b, c], SameChild, 0, 2);
  }

  const EMPTY := Db(Table(map[], 1), Table(map[], 1), Table(map[], 1), Table(map[], 1),
                    Table(map[], 1), Table(map[], 1), Table(map[], 1), Table(map[], 1))

  lemma OnlyApiKey(db: Db, row: Row<string>)
    ensures Imported(db, OnlyParents([], []).(apiKeys := [row])) ==
      Done(db.(apiKeys := Insert(db.apiKeys, row, Never, true)))
  {
    var t := OnlyParents([], []).(apiKeys := [row]);
    assert WithParents(db, t) == db;
    ClosedIsKept(t, ExistingIn(db));
    RefusalOfOne(db.apiKeys, row, Never, Anything(), true);
  }

  /** A row without an id may come in again: nothing of an API key but its id is unique. */
  lemma RowWithoutIdComesAgain()
    ensures var t := OnlyParents([], []).(apiKeys := [Row(0, "k")]);
      var once := Imported(EMPTY, t);
      once.Done? && once.db.apiKeys.rows == map[1 := "k"] &&
      Imported(once.db, t).Done? && Imported(once.db, t).db.apiKeys.rows == map[1 := "k", 2 := "k"]
  {
    OnlyApiKey(EMPTY, Row(0, "k"));
    OnlyApiKey(EMPTY.(apiKeys := Table(map[1 := "k"], 2)), Row(0, "k"));
  }
}
