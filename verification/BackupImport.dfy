/** Writing a dump into the database: channels, groups, group items and API keys are skipped on a
    conflict, the other tables are overwritten by primary key, and a row that breaks a foreign key or a
    unique index refuses the import as a whole. A child group and the API key of statistics are not
    foreign keys. The module says for which dumped channels and groups an import can be refused or can
    leave a dangling reference, and that a backup restores what was lost. When a second import of the same
    dump changes nothing is the subject of `BackupRepeat`. */
module BackupImport {
  import opened Common
  import opened Backup

  /** A table with an increasing primary key; the row of id 0 gets the next one. */
  datatype Table<T> = Table(rows: map<int, T>, next: int)

  datatype Db = Db(
    channels: Table<Named>, keys: Table<Child>, models: Table<Child>, grants: Table<Pair>,
    groups: Table<Named>, items: Table<Member>, apiKeys: Table<string>, stats: Table<string>)

  datatype Why = MissingParent | DuplicateRow

  datatype Outcome = Done(db: Db) | Refused(why: Why)

  // ---------- Unique indexes ----------

  predicate SameName(x: Named, y: Named) { x.name == y.name }
  predicate SameChild(x: Child, y: Child) { x.channel == y.channel && x.name == y.name }
  predicate SamePair(x: Pair, y: Pair) { x.model == y.model && x.key == y.key }

  /** A group holds a grant, and a child group, at most once; a missing side does not count. */
  predicate SameMember(x: Member, y: Member) {
    x.group == y.group && ((x.grant.Some? && x.grant == y.grant) || (x.child.Some? && x.child == y.child))
  }

  predicate Never(x: string, y: string) { false }

  // ---------- One row ----------

  function IdFor<T>(t: Table<T>, r: Row<T>): int { if r.id == 0 then t.next else r.id }

  function Put<T>(t: Table<T>, r: Row<T>): Table<T> {
    Table(t.rows[IdFor(t, r) := r.cols], if IdFor(t, r) < t.next then t.next else IdFor(t, r) + 1)
  }

  predicate Conflicts<T>(t: Table<T>, r: Row<T>, same: (T, T) -> bool) {
    r.id in t.rows || exists k :: k in t.rows && same(t.rows[k], r.cols)
  }

  /** Inserting a row: on a conflict nothing happens, or else the row with its primary key is overwritten. */
  function Insert<T>(t: Table<T>, r: Row<T>, same: (T, T) -> bool, doNothing: bool): Table<T> {
    if doNothing && Conflicts(t, r, same) then t else Put(t, r)
  }

  /** Why the database refuses the row, if it does. */
  function Check<T>(t: Table<T>, r: Row<T>, same: (T, T) -> bool, stands: T -> bool, doNothing: bool): Option<Why> {
    if doNothing && Conflicts(t, r, same) then None
    else if exists k :: k in t.rows && k != r.id && same(t.rows[k], r.cols) then Some(DuplicateRow)
    else if !stands(r.cols) then Some(MissingParent)
    else None
  }

  // ---------- All rows ----------

  function AddAll<T>(t: Table<T>, rows: seq<Row<T>>, same: (T, T) -> bool, doNothing: bool): Table<T> {
    if rows == [] then t
    else Insert(AddAll(t, rows[..|rows| - 1], same, doNothing), rows[|rows| - 1], same, doNothing)
  }

  /** The first refusal, if there is one. */
  function Refusal<T>(t: Table<T>, rows: seq<Row<T>>, same: (T, T) -> bool, stands: T -> bool,
      doNothing: bool): Option<Why> {
    if rows == [] then None
    else
      var init := rows[..|rows| - 1];
      First(Refusal(t, init, same, stands, doNothing),
            Check(AddAll(t, init, same, doNothing), rows[|rows| - 1], same, stands, doNothing))
  }

  function First(a: Option<Why>, b: Option<Why>): Option<Why> { if a.Some? then a else b }

  lemma {:induction false} RefusedEarly<T>(t: Table<T>, rows: seq<Row<T>>, same: (T, T) -> bool, stands: T -> bool,
      doNothing: bool, n: nat)
    requires n <= |rows| && Refusal(t, rows[..n], same, stands, doNothing).Some?
    ensures Refusal(t, rows, same, stands, doNothing) == Refusal(t, rows[..n], same, stands, doNothing)
  {
    if n < |rows| {
      assert rows[..|rows| - 1][..n] == rows[..n];
      RefusedEarly(t, rows[..|rows| - 1], same, stands, doNothing, n);
    } else {
      assert rows[..n] == rows;
    }
  }

  method RawCreate<T>(t: Table<T>, rows: seq<Row<T>>, same: (T, T) -> bool, stands: T -> bool, doNothing: bool)
    returns (r: Table<T>, why: Option<Why>)
    ensures why == Refusal(t, rows, same, stands, doNothing)
    ensures why.None? ==> r == AddAll(t, rows, same, doNothing)
  {
    r := t;
    for i := 0 to |rows|
      invariant r == AddAll(t, rows[..i], same, doNothing) && Refusal(t, rows[..i], same, stands, doNothing) == None
    {
      OneMore(rows, i);
      assert rows[..i + 1][..i] == rows[..i];
      why := Check(r, rows[i], same, stands, doNothing);
      if why.Some? {
        RefusedEarly(t, rows, same, stands, doNothing, i + 1);
        return;
      }
      r := Insert(r, rows[i], same, doNothing);
    }
    OneMore(rows, |rows|);
    why := None;
  }

  // ---------- The import ----------

  // What the database demands of a row: its foreign keys.
  function Anything<T>(): T -> bool { _ => true }
  function HasChannel(db: Db): Child -> bool { (c: Child) => c.channel in db.channels.rows }
  function HasModelAndKey(db: Db): Pair -> bool { (p: Pair) => p.model in db.models.rows && p.key in db.keys.rows }
  function HasGroupAndGrant(db: Db): Member -> bool {
    (m: Member) => m.group in db.groups.rows && (m.grant.Some? ==> m.grant.value in db.grants.rows)
  }

  function WithParents(db: Db, t: Tables): Db {
    db.(channels := AddAll(db.channels, t.channels, SameName, true),
      groups := AddAll(db.groups, t.groups, SameName, true))
  }

  function ExistingIn(db: Db): Existing {
    Existing(db.channels.rows.Keys, db.keys.rows.Keys, db.models.rows.Keys, db.grants.rows.Keys, db.groups.rows.Keys,
      db.apiKeys.rows.Keys)
  }

  function WithChildren(db: Db, s: Tables): Db {
    db.(keys := AddAll(db.keys, s.keys, SameChild, false), models := AddAll(db.models, s.models, SameChild, false))
  }

  function WithGrants(db: Db, s: Tables): Db { db.(grants := AddAll(db.grants, s.grants, SamePair, false)) }

  function WithItems(db: Db, s: Tables): Db { db.(items := AddAll(db.items, s.items, SameMember, true)) }

  function WithApiKeys(db: Db, s: Tables): Db {
    db.(apiKeys := AddAll(db.apiKeys, s.apiKeys, Never, true), stats := AddAll(db.stats, s.stats, Never, false))
  }

  /** What is written below the parents. */
  function WithRest(db: Db, s: Tables): Db { WithApiKeys(WithItems(WithGrants(WithChildren(db, s), s), s), s) }

  /** Why writing it is refused, if it is. */
  function RestRefusal(db: Db, s: Tables): Option<Why> {
    var db2 := WithChildren(db, s);
    var db3 := WithGrants(db2, s);
    First(Refusal(db.keys, s.keys, SameChild, HasChannel(db), false),
    First(Refusal(db.models, s.models, SameChild, HasChannel(db), false),
    First(Refusal(db.grants, s.grants, SamePair, HasModelAndKey(db2), false),
          Refusal(db.items, s.items, SameMember, HasGroupAndGrant(db3), true))))
  }

  /** The part of a dump that is written once the parents are there. */
  function Kept(db: Db, t: Tables): Tables { Sanitized(t, ExistingIn(WithParents(db, t))) }

  /** What an import comes to. */
  function Imported(db: Db, t: Tables): Outcome {
    var why := RestRefusal(WithParents(db, t), Kept(db, t));
    if why.Some? then Refused(why.value) else Done(WithRest(WithParents(db, t), Kept(db, t)))
  }

  lemma {:induction false} NothingDemanded<T>(t: Table<T>, rows: seq<Row<T>>, same: (T, T) -> bool)
    ensures Refusal(t, rows, same, Anything(), true) == None
  {
    if rows != [] {
      NothingDemanded(t, rows[..|rows| - 1], same);
    }
  }

  lemma {:induction false} NothingUnique(t: Table<string>, rows: seq<Row<string>>)
    ensures Refusal(t, rows, Never, Anything(), false) == None
  {
    if rows != [] {
      NothingUnique(t, rows[..|rows| - 1]);
    }
  }

  class Instance {
    var db: Db

    constructor (db: Db)
      ensures this.db == db
    {
      this.db := db;
    }

    /** Parents first; then the orphans are dropped against what is really there; then the rest. All
        of it is one transaction: an import that is refused leaves the database as it was. */
    method DBImportIncremental(dump: Dump) returns (why: Option<Why>, skipped: Skipped)
      modifies this, dump
      ensures Imported(old(db), old(dump.t)) == if why.None? then Done(db) else Refused(why.value)
      ensures why.Some? ==> db == old(db)
      ensures dump.t == Kept(old(db), old(dump.t))
    {
      var tx := db;
      NothingDemanded(tx.channels, dump.t.channels, SameName);
      NothingDemanded(tx.groups, dump.t.groups, SameName);
      var channels, _ := RawCreate(tx.channels, dump.t.channels, SameName, Anything(), true);
      tx := tx.(channels := channels);
      var groups, _ := RawCreate(tx.groups, dump.t.groups, SameName, Anything(), true);
      tx := tx.(groups := groups);
      skipped := dump.SanitizeOrphanRows(ExistingIn(tx));
      why, tx := Rest(tx, dump.t);
      if why.None? {
        db := tx;
      }
    }

    static method Rest(db: Db, s: Tables) returns (why: Option<Why>, tx: Db)
      ensures why == RestRefusal(db, s) && (why.None? ==> tx == WithRest(db, s))
    {
      tx := db;
      var keys, keysWhy := RawCreate(tx.keys, s.keys, SameChild, HasChannel(db), false);
      if keysWhy.Some? {
        return keysWhy, tx;
      }
      tx := tx.(keys := keys);
      var models, modelsWhy := RawCreate(tx.models, s.models, SameChild, HasChannel(db), false);
      if modelsWhy.Some? {
        return modelsWhy, tx;
      }
      tx := tx.(models := models);
      var grants, grantsWhy := RawCreate(tx.grants, s.grants, SamePair, HasModelAndKey(tx), false);
      if grantsWhy.Some? {
        return grantsWhy, tx;
      }
      tx := tx.(grants := grants);
      var items, itemsWhy := RawCreate(tx.items, s.items, SameMember, HasGroupAndGrant(tx), true);
      if itemsWhy.Some? {
        return itemsWhy, tx;
      }
      tx := tx.(items := items);
      NothingDemanded(tx.apiKeys, s.apiKeys, Never);
      NothingUnique(tx.stats, s.stats);
      var apiKeys, _ := RawCreate(tx.apiKeys, s.apiKeys, Never, Anything(), true);
      tx := tx.(apiKeys := apiKeys);
      var stats, _ := RawCreate(tx.stats, s.stats, Never, Anything(), false);
      tx := tx.(stats := stats);
      why := None;
    }
  }

  // ---------- What adding rows keeps ----------

  ghost predicate Numbered<T>(t: Table<T>) { 0 < t.next && forall k :: k in t.rows ==> k != 0 && k < t.next }

  ghost predicate Unique<T>(t: Table<T>, same: (T, T) -> bool) {
    forall i, j :: i in t.rows && j in t.rows && i != j ==> !same(t.rows[i], t.rows[j])
  }

  ghost predicate Symmetric<T(!new)>(same: (T, T) -> bool) { forall x, y :: same(x, y) == same(y, x) }

  ghost predicate AllStand<T>(t: Table<T>, stands: T -> bool) { forall k :: k in t.rows ==> stands(t.rows[k]) }

  lemma {:induction false} AddAllGrows<T>(t: Table<T>, rows: seq<Row<T>>, same: (T, T) -> bool, doNothing: bool)
    ensures t.rows.Keys <= AddAll(t, rows, same, doNothing).rows.Keys
    ensures Numbered(t) ==> Numbered(AddAll(t, rows, same, doNothing))
  {
    if rows != [] {
      AddAllGrows(t, rows[..|rows| - 1], same, doNothing);
    }
  }

  /** An entry afterwards was there before or is a row of the list. */
  lemma {:induction false} AddAllEntry<T>(t: Table<T>, rows: seq<Row<T>>, same: (T, T) -> bool, doNothing: bool, k: int)
    requires k in AddAll(t, rows, same, doNothing).rows
    ensures var now := AddAll(t, rows, same, doNothing).rows[k];
      (k in t.rows && now == t.rows[k]) || exists r :: r in rows && r.cols == now
  {
    if rows != [] {
      var init, last := rows[..|rows| - 1], rows[|rows| - 1];
      if k in AddAll(t, init, same, doNothing).rows {
        AddAllEntry(t, init, same, doNothing, k);
      }
      assert rows == init + [last];
    }
  }

  lemma {:induction false} AddAllStands<T>(t: Table<T>, rows: seq<Row<T>>, same: (T, T) -> bool, stands: T -> bool,
      doNothing: bool)
    requires AllStand(t, stands) && Refusal(t, rows, same, stands, doNothing) == None
    ensures AllStand(AddAll(t, rows, same, doNothing), stands)
  {
    if rows != [] {
      AddAllStands(t, rows[..|rows| - 1], same, stands, doNothing);
    }
  }

  lemma {:induction false} AddAllUnique<T(!new)>(t: Table<T>, rows: seq<Row<T>>, same: (T, T) -> bool,
      stands: T -> bool, doNothing: bool)
    requires Numbered(t) && Unique(t, same) && Symmetric(same) && Refusal(t, rows, same, stands, doNothing) == None
    ensures Unique(AddAll(t, rows, same, doNothing), same)
  {
    if rows != [] {
      var init, last := rows[..|rows| - 1], rows[|rows| - 1];
      AddAllUnique(t, init, same, stands, doNothing);
      AddAllGrows(t, init, same, doNothing);
      var a := AddAll(t, init, same, doNothing);
      if !(doNothing && Conflicts(a, last, same)) {
        forall k | k in a.rows && k != IdFor(a, last) ensures !same(a.rows[k], last.cols) {
          assert Check(a, last, same, stands, doNothing) != Some(DuplicateRow);
        }
      }
    }
  }

  /** Every row of the list now conflicts with what is there. */
  lemma {:induction false} AddAllConflicts<T>(t: Table<T>, rows: seq<Row<T>>, same: (T, T) -> bool, r: Row<T>)
    requires Numbered(t) && r in rows && (r.id != 0 || same(r.cols, r.cols))
    ensures Conflicts(AddAll(t, rows, same, true), r, same)
  {
    var init, last := rows[..|rows| - 1], rows[|rows| - 1];
    var a := AddAll(t, init, same, true);
    AddAllGrows(t, init, same, true);
    if r in init {
      AddAllConflicts(t, init, same, r);
      if k :| k in a.rows && same(a.rows[k], r.cols) {
        assert Insert(a, last, same, true).rows[k] == a.rows[k];
      }
    } else {
      assert r == last;
      assert !Conflicts(a, r, same) ==> Insert(a, r, same, true).rows[IdFor(a, r)] == r.cols;
    }
  }

  lemma {:induction false} AddAllHas<T>(t: Table<T>, rows: seq<Row<T>>, same: (T, T) -> bool)
    ensures IdsOf(rows) <= AddAll(t, rows, same, false).rows.Keys
  {
    if rows != [] {
      var init, last := rows[..|rows| - 1], rows[|rows| - 1];
      AddAllHas(t, init, same);
      forall x | x in IdsOf(rows) ensures x in AddAll(t, rows, same, false).rows {
        var i :| 0 <= i < |rows| && rows[i].id == x && x != 0;
        if i < |rows| - 1 {
          assert init[i].id == x && x in IdsOf(init);
        }
      }
    }
  }

  lemma {:induction false} AddAllAdds<T>(t: Table<T>, rows: seq<Row<T>>, same: (T, T) -> bool, doNothing: bool)
    requires forall r :: r in rows ==> r.id != 0
    ensures AddAll(t, rows, same, doNothing).rows.Keys <= t.rows.Keys + IdsOf(rows)
  {
    if rows != [] {
      var init, last := rows[..|rows| - 1], rows[|rows| - 1];
      assert rows == init + [last];
      AddAllAdds(t, init, same, doNothing);
      IdsOfMonotone(init, rows);
      assert rows[|rows| - 1].id in IdsOf(rows);
    }
  }

  // ---------- What an import keeps ----------

  /** The references that the database enforces. */
  ghost predicate Enforced(db: Db) {
    && AllStand(db.keys, HasChannel(db)) && AllStand(db.models, HasChannel(db))
    && AllStand(db.grants, HasModelAndKey(db)) && AllStand(db.items, HasGroupAndGrant(db))
  }

  ghost predicate AllNumbered(db: Db) {
    && Numbered(db.channels) && Numbered(db.keys) && Numbered(db.models) && Numbered(db.grants)
    && Numbered(db.groups) && Numbered(db.items) && Numbered(db.apiKeys) && Numbered(db.stats)
  }

  ghost predicate AllUnique(db: Db) {
    && Unique(db.channels, SameName) && Unique(db.keys, SameChild) && Unique(db.models, SameChild)
    && Unique(db.grants, SamePair) && Unique(db.groups, SameName) && Unique(db.items, SameMember)
  }

  /** All that holds of the database but for child groups. */
  ghost predicate Sound(db: Db) {
    AllNumbered(db) && AllUnique(db) && Enforced(db) && db.stats.rows.Keys <= db.apiKeys.rows.Keys
  }

  predicate ChildThere(db: Db, m: Member) { m.child.Some? ==> m.child.value in db.groups.rows }

  /** No reference of the database dangles. */
  ghost predicate Intact(db: Db) { Sound(db) && forall k :: k in db.items.rows ==> ChildThere(db, db.items.rows[k]) }

  lemma ParentsKeepSound(db: Db, t: Tables)
    requires Sound(db)
    ensures Sound(WithParents(db, t)) && db.groups.rows.Keys <= WithParents(db, t).groups.rows.Keys
    ensures db.channels.rows.Keys <= WithParents(db, t).channels.rows.Keys
  {
    AddAllGrows(db.channels, t.channels, SameName, true);
    AddAllGrows(db.groups, t.groups, SameName, true);
    NothingDemanded(db.channels, t.channels, SameName);
    NothingDemanded(db.groups, t.groups, SameName);
    AddAllUnique(db.channels, t.channels, SameName, Anything(), true);
    AddAllUnique(db.groups, t.groups, SameName, Anything(), true);
  }

  lemma ChildrenKeepSound(db: Db, s: Tables)
    requires Sound(db) && RestRefusal(db, s) == None
    ensures Sound(WithChildren(db, s))
  {
    AddAllGrows(db.keys, s.keys, SameChild, false);
    AddAllGrows(db.models, s.models, SameChild, false);
    AddAllUnique(db.keys, s.keys, SameChild, HasChannel(db), false);
    AddAllUnique(db.models, s.models, SameChild, HasChannel(db), false);
    AddAllStands(db.keys, s.keys, SameChild, HasChannel(db), false);
    AddAllStands(db.models, s.models, SameChild, HasChannel(db), false);
  }

  lemma GrantsKeepSound(db: Db, s: Tables)
    requires Sound(db) && Refusal(db.grants, s.grants, SamePair, HasModelAndKey(db), false) == None
    ensures Sound(WithGrants(db, s))
  {
    AddAllGrows(db.grants, s.grants, SamePair, false);
    AddAllUnique(db.grants, s.grants, SamePair, HasModelAndKey(db), false);
    AddAllStands(db.grants, s.grants, SamePair, HasModelAndKey(db), false);
  }

  lemma ItemsKeepSound(db: Db, s: Tables)
    requires Sound(db) && Refusal(db.items, s.items, SameMember, HasGroupAndGrant(db), true) == None
    ensures Sound(WithItems(db, s))
  {
    AddAllGrows(db.items, s.items, SameMember, true);
    AddAllUnique(db.items, s.items, SameMember, HasGroupAndGrant(db), true);
    AddAllStands(db.items, s.items, SameMember, HasGroupAndGrant(db), true);
  }

  lemma ApiKeysKeepSound(db: Db, s: Tables)
    requires Sound(db) && forall r :: r in s.stats ==> r.id in IdsOf(s.apiKeys) + db.apiKeys.rows.Keys
    ensures Sound(WithApiKeys(db, s))
  {
    AddAllGrows(db.apiKeys, s.apiKeys, Never, true);
    AddAllGrows(db.stats, s.stats, Never, false);
    AddAllAdds(db.stats, s.stats, Never, false);
    var now := WithApiKeys(db, s).apiKeys;
    forall x | x in IdsOf(s.apiKeys) ensures x in now.rows {
      var i :| 0 <= i < |s.apiKeys| && s.apiKeys[i].id == x && x != 0;
      AddAllConflicts(db.apiKeys, s.apiKeys, Never, s.apiKeys[i]);
    }
    forall x | x in IdsOf(s.stats) ensures x in now.rows {
      var i :| 0 <= i < |s.stats| && s.stats[i].id == x && x != 0;
      assert s.stats[i] in s.stats;
    }
  }

  /** An import that goes through keeps every invariant but the one about child groups. */
  lemma ImportKeepsSound(db: Db, t: Tables)
    requires Sound(db) && Imported(db, t).Done?
    ensures Sound(Imported(db, t).db)
  {
    var db1, s := WithParents(db, t), Kept(db, t);
    SanitizedStands(t, ExistingIn(db1));
    ParentsKeepSound(db, t);
    ChildrenKeepSound(db1, s);
    var db2 := WithChildren(db1, s);
    GrantsKeepSound(db2, s);
    ItemsKeepSound(WithGrants(db2, s), s);
    forall r | r in s.stats ensures r.id in IdsOf(s.apiKeys) + db.apiKeys.rows.Keys {
      assert StatsStands(s, ExistingIn(db1), r);
    }
    ApiKeysKeepSound(WithItems(WithGrants(db2, s), s), s);
  }

  /** The dumped groups whose own insert was skipped, while the orphan filter counts them as there. */
  function SkippedGroups(db: Db, t: Tables): set<int> { IdsOf(t.groups) - WithParents(db, t).groups.rows.Keys }

  /** After an import that goes through, what dangles are exactly the references to a skipped child group. */
  lemma DanglesExactly(db: Db, t: Tables)
    requires Intact(db) && Imported(db, t).Done?
    ensures var r := Imported(db, t).db;
      Sound(r) && forall k :: k in r.items.rows ==>
        (ChildThere(r, r.items.rows[k]) <==>
          !(r.items.rows[k].child.Some? && r.items.rows[k].child.value in SkippedGroups(db, t)))
  {
    var db1, s, r := WithParents(db, t), Kept(db, t), Imported(db, t).db;
    ImportKeepsSound(db, t);
    ParentsKeepSound(db, t);
    SanitizedStands(t, ExistingIn(db1));
    forall k | k in r.items.rows && r.items.rows[k].child.Some?
      ensures r.items.rows[k].child.value in r.groups.rows || r.items.rows[k].child.value in SkippedGroups(db, t)
    {
      AddAllEntry(db.items, s.items, SameMember, true, k);
      if row :| row in s.items && row.cols == r.items.rows[k] {
        assert ItemStands(s, ExistingIn(db1), row);
      }
    }
  }

  // ---------- Which channels and groups get in ----------

  predicate NameTaken(t: Table<Named>, name: string) { exists k :: k in t.rows && t.rows[k].name == name }

  /** Row `i` of a list is entered: neither its name nor its id is taken, by the table or by an earlier
      row that was entered. Who is entered thus depends on who was, all the way down the list. */
  predicate Enters(t: Table<Named>, rows: seq<Row<Named>>, i: nat)
    requires i < |rows|
    decreases i, 0
  {
    && !NameTaken(t, rows[i].cols.name) && rows[i].id !in t.rows
    && forall j: nat | j < i && Enters(t, rows, j) ::
      rows[j].cols.name != rows[i].cols.name && EnteredId(t, rows, j) != rows[i].id
  }

  /** The id that row `i` is entered under. */
  function EnteredId(t: Table<Named>, rows: seq<Row<Named>>, i: nat): int
    requires i < |rows|
    decreases i, 2
  {
    if rows[i].id != 0 then rows[i].id else NextId(t, rows, i)
  }

  /** The next id once the first `i` rows have been handled. */
  function NextId(t: Table<Named>, rows: seq<Row<Named>>, i: nat): int
    requires i <= |rows|
    decreases i, 1
  {
    if i == 0 then t.next
    else
      var next := NextId(t, rows, i - 1);
      if !Enters(t, rows, i - 1) then next
      else
        var id := EnteredId(t, rows, i - 1);
        if id < next then next else id + 1
  }

  /** One of the first `n` rows enters under this id. */
  predicate IdEnters(t: Table<Named>, rows: seq<Row<Named>>, n: nat, id: int)
    requires n <= |rows|
  {
    exists i: nat :: i < n && Enters(t, rows, i) && EnteredId(t, rows, i) == id
  }

  predicate NameEnters(t: Table<Named>, rows: seq<Row<Named>>, n: nat, name: string)
    requires n <= |rows|
  {
    exists i: nat :: i < n && Enters(t, rows, i) && rows[i].cols.name == name
  }

  /** Every row with an id is there in the end: its id was there before, or some row enters under it. */
  predicate AllLand(t: Table<Named>, rows: seq<Row<Named>>) {
    forall id :: id in IdsOf(rows) ==> id in t.rows || IdEnters(t, rows, |rows|, id)
  }

  /** The table after the first `n` rows, told by who was entered. */
  ghost predicate ToldByEntered(t: Table<Named>, rows: seq<Row<Named>>, n: nat, a: Table<Named>)
    requires n <= |rows|
  {
    && a.next == NextId(t, rows, n)
    && (forall id :: id in a.rows <==> id in t.rows || IdEnters(t, rows, n, id))
    && (forall name :: NameTaken(a, name) <==> NameTaken(t, name) || NameEnters(t, rows, n, name))
  }

  lemma {:induction false} EnteredRight(t: Table<Named>, rows: seq<Row<Named>>, n: nat)
    requires n <= |rows| && Numbered(t)
    ensures ToldByEntered(t, rows, n, AddAll(t, rows[..n], SameName, true))
  {
    if n == 0 {
    } else {
      EnteredRight(t, rows, n - 1);
      var a := AddAll(t, rows[..n - 1], SameName, true);
      AddAllGrows(t, rows[..n - 1], SameName, true);
      assert rows[..n][..n - 1] == rows[..n - 1];
      EnteredStep(t, rows, n - 1, a);
    }
  }

  lemma OneMoreId(t: Table<Named>, rows: seq<Row<Named>>, n: nat, id: int)
    requires n < |rows|
    ensures IdEnters(t, rows, n + 1, id) <==>
      IdEnters(t, rows, n, id) || (Enters(t, rows, n) && EnteredId(t, rows, n) == id)
  {
  }

  lemma OneMoreName(t: Table<Named>, rows: seq<Row<Named>>, n: nat, name: string)
    requires n < |rows|
    ensures NameEnters(t, rows, n + 1, name) <==>
      NameEnters(t, rows, n, name) || (Enters(t, rows, n) && rows[n].cols.name == name)
  {
  }

  lemma EnteredStep(t: Table<Named>, rows: seq<Row<Named>>, n: nat, a: Table<Named>)
    requires n < |rows| && Numbered(t) && Numbered(a) && ToldByEntered(t, rows, n, a)
    ensures ToldByEntered(t, rows, n + 1, Insert(a, rows[n], SameName, true))
  {
    var r, b := rows[n], Insert(a, rows[n], SameName, true);
    EntersExactly(t, rows, n, a);
    forall id ensures id in b.rows <==> id in t.rows || IdEnters(t, rows, n + 1, id) {
      OneMoreId(t, rows, n, id);
    }
    forall name ensures NameTaken(b, name) <==> NameTaken(t, name) || NameEnters(t, rows, n + 1, name) {
      OneMoreName(t, rows, n, name);
      if Enters(t, rows, n) {
        PutNames(a, r, name);
      }
    }
  }

  lemma EntersExactly(t: Table<Named>, rows: seq<Row<Named>>, n: nat, a: Table<Named>)
    requires n < |rows| && ToldByEntered(t, rows, n, a)
    ensures Enters(t, rows, n) <==> !Conflicts(a, rows[n], SameName)
  {
    var name := rows[n].cols.name;
    assert NameTaken(a, name) <==> exists k :: k in a.rows && SameName(a.rows[k], rows[n].cols);
  }

  lemma PutNames(a: Table<Named>, r: Row<Named>, name: string)
    requires IdFor(a, r) !in a.rows
    ensures NameTaken(Put(a, r), name) <==> NameTaken(a, name) || name == r.cols.name
  {
    var b := Put(a, r);
    if k :| k in a.rows && a.rows[k].name == name {
      assert b.rows[k].name == name;
    }
    assert b.rows[IdFor(a, r)] == r.cols;
  }

  /** Told by the list alone, before anything is written: exactly then every dumped id is there afterwards. */
  lemma AllLandExactly(t: Table<Named>, rows: seq<Row<Named>>)
    requires Numbered(t)
    ensures AllLand(t, rows) <==> IdsOf(rows) <= AddAll(t, rows, SameName, true).rows.Keys
  {
    EnteredRight(t, rows, |rows|);
    assert rows[..|rows|] == rows;
  }

  predicate HaveIds<T>(rows: seq<Row<T>>) { forall i :: 0 <= i < |rows| ==> rows[i].id != 0 }

  /** Every row has an id, and no two rows have the same: so are the rows of a table that was dumped. */
  predicate Keyed<T>(rows: seq<Row<T>>) {
    HaveIds(rows) && forall i, j :: 0 <= i < j < |rows| ==> rows[i].id != rows[j].id
  }

  /** The rows with a new id have names of their own: no row of the table has one of them, nor has another such row. */
  predicate NewNamesFree(t: Table<Named>, rows: seq<Row<Named>>) {
    forall i | 0 <= i < |rows| && rows[i].id !in t.rows ::
      !NameTaken(t, rows[i].cols.name)
      && forall j | 0 <= j < i && rows[j].id !in t.rows :: rows[j].cols.name != rows[i].cols.name
  }

  /** For the rows of a dumped table nothing has to be followed down the list. */
  lemma LandsExactlyIfFree(t: Table<Named>, rows: seq<Row<Named>>)
    requires Keyed(rows)
    ensures AllLand(t, rows) <==> NewNamesFree(t, rows)
  {
    if NewNamesFree(t, rows) {
      forall id | id in IdsOf(rows) && id !in t.rows ensures IdEnters(t, rows, |rows|, id) {
        var i: nat :| i < |rows| && rows[i].id == id;
        assert Enters(t, rows, i);
      }
    }
    if AllLand(t, rows) {
      forall i: nat | i < |rows| && rows[i].id !in t.rows ensures Enters(t, rows, i) {
        assert rows[i].id in IdsOf(rows);
        var j: nat :| j < |rows| && Enters(t, rows, j) && EnteredId(t, rows, j) == rows[i].id;
      }
    }
  }

  /** Enough for every list: each id is known, or its name is held by no row of the table and by no earlier row. */
  lemma FreeNamesLand(t: Table<Named>, rows: seq<Row<Named>>)
    requires forall i :: 0 <= i < |rows| && rows[i].id != 0 && rows[i].id !in t.rows ==>
      !NameTaken(t, rows[i].cols.name) && forall j | 0 <= j < i :: rows[j].cols.name != rows[i].cols.name
    ensures AllLand(t, rows)
  {
    forall id | id in IdsOf(rows) && id !in t.rows ensures IdEnters(t, rows, |rows|, id) {
      var i: nat :| i < |rows| && rows[i].id == id;
      if !Enters(t, rows, i) {
        var j: nat :| j < i && Enters(t, rows, j)
          && (rows[j].cols.name == rows[i].cols.name || EnteredId(t, rows, j) == id);
      }
    }
  }

  /** That is not needed: an earlier row holds the name and is skipped itself. */
  lemma SharedNameCanLand()
    ensures var t := Table(map[5 := Named("z", "")], 6);
      var rows := [Row(5, Named("a", "")), Row(6, Named("a", ""))];
      AllLand(t, rows) && rows[1].id !in t.rows && rows[0].cols.name == rows[1].cols.name
  {
    var t := Table(map[5 := Named("z", "")], 6);
    var rows := [Row(5, Named("a", "")), Row(6, Named("a", ""))];
    assert !Enters(t, rows, 0);
    assert Enters(t, rows, 1) && EnteredId(t, rows, 1) == 6;
  }

  // ---------- When an import is refused, and when it leaves a dangling reference ----------

  lemma {:induction false} StandingNotMissing<T>(t: Table<T>, rows: seq<Row<T>>, same: (T, T) -> bool,
      stands: T -> bool, doNothing: bool)
    requires forall r :: r in rows ==> stands(r.cols)
    ensures Refusal(t, rows, same, stands, doNothing) != Some(MissingParent)
  {
    if rows != [] {
      StandingNotMissing(t, rows[..|rows| - 1], same, stands, doNothing);
      assert rows[|rows| - 1] in rows;
    }
  }

  lemma GrantsNotMissing(db: Db, s: Tables, e: Existing)
    requires Closed(s, e) && e == ExistingIn(db)
    ensures Refusal(db.grants, s.grants, SamePair, HasModelAndKey(WithChildren(db, s)), false) != Some(MissingParent)
  {
    var db2 := WithChildren(db, s);
    AddAllGrows(db.keys, s.keys, SameChild, false);
    AddAllGrows(db.models, s.models, SameChild, false);
    AddAllHas(db.keys, s.keys, SameChild);
    AddAllHas(db.models, s.models, SameChild);
    forall r | r in s.grants ensures HasModelAndKey(db2)(r.cols) {
      assert GrantStands(s, e, r);
    }
    StandingNotMissing(db.grants, s.grants, SamePair, HasModelAndKey(db2), false);
  }

  lemma ItemsNotMissing(db: Db, s: Tables, e: Existing)
    requires Closed(s, e) && e == ExistingIn(db) && IdsOf(s.groups) <= db.groups.rows.Keys
    ensures var stands := HasGroupAndGrant(WithGrants(WithChildren(db, s), s));
      Refusal(db.items, s.items, SameMember, stands, true) != Some(MissingParent)
  {
    var db3 := WithGrants(WithChildren(db, s), s);
    AddAllGrows(db.grants, s.grants, SamePair, false);
    AddAllHas(db.grants, s.grants, SamePair);
    forall r | r in s.items ensures HasGroupAndGrant(db3)(r.cols) {
      assert ItemStands(s, e, r);
    }
    StandingNotMissing(db.items, s.items, SameMember, HasGroupAndGrant(db3), true);
  }

  lemma ChildrenNotMissing(db: Db, rows: seq<Row<Child>>, t: Table<Child>, s: Tables, e: Existing)
    requires e == ExistingIn(db) && IdsOf(s.channels) <= db.channels.rows.Keys
    requires forall r :: r in rows ==> ChildStands(s, e, r)
    ensures Refusal(t, rows, SameChild, HasChannel(db), false) != Some(MissingParent)
  {
    forall r | r in rows ensures HasChannel(db)(r.cols) {
      assert ChildStands(s, e, r);
    }
    StandingNotMissing(t, rows, SameChild, HasChannel(db), false);
  }

  lemma LandedNotMissing(db: Db, t: Tables)
    requires Sound(db) && AllLand(db.channels, t.channels) && AllLand(db.groups, t.groups)
    ensures Imported(db, t) != Refused(MissingParent)
  {
    var db1, s := WithParents(db, t), Kept(db, t);
    AllLandExactly(db.channels, t.channels);
    AllLandExactly(db.groups, t.groups);
    SanitizedStands(t, ExistingIn(db1));
    ChildrenNotMissing(db1, s.keys, db1.keys, s, ExistingIn(db1));
    ChildrenNotMissing(db1, s.models, db1.models, s, ExistingIn(db1));
    GrantsNotMissing(db1, s, ExistingIn(db1));
    ItemsNotMissing(db1, s, ExistingIn(db1));
  }

  function OnlyParents(channels: seq<Row<Named>>, groups: seq<Row<Named>>): Tables {
    Tables(channels, [], [], [], groups, [], [], [])
  }

  /** A dumped key of a dumped channel that was skipped is kept, and then refused. */
  lemma SkippedChannelRefused(db: Db, channels: seq<Row<Named>>, groups: seq<Row<Named>>) returns (t: Tables)
    requires Sound(db) && !AllLand(db.channels, channels)
    ensures t.channels == channels && t.groups == groups && Imported(db, t) == Refused(MissingParent)
  {
    AllLandExactly(db.channels, channels);
    var c :| c in IdsOf(channels) && c !in AddAll(db.channels, channels, SameName, true).rows;
    var row := Row(1, Child(c, "", ""));
    t := OnlyParents(channels, groups).(keys := [row]);
    var db1 := WithParents(db, t);
    ParentsKeepSound(db, t);
    assert ChildStands(t, ExistingIn(db1), row);
    KeepOne(row, ChildOk(t, ExistingIn(db1)));
    RefusalOfOne(db1.keys, row, SameChild, HasChannel(db1), false);
  }

  lemma KeepOne<T>(row: Row<T>, ok: Row<T> -> bool)
    ensures Keep([row], ok) == if ok(row) then [row] else []
  {
    assert [row][..0] == [];
  }

  lemma RefusalOfOne<T>(t: Table<T>, row: Row<T>, same: (T, T) -> bool, stands: T -> bool, doNothing: bool)
    ensures Refusal(t, [row], same, stands, doNothing) == Check(t, row, same, stands, doNothing)
    ensures AddAll(t, [row], same, doNothing) == Insert(t, row, same, doNothing)
  {
    assert [row][..0] == [];
  }

  /** Without dumped keys, models and grants a dumped item is judged against the dump as it is. */
  lemma OnlyItem(db: Db, t: Tables, row: Row<Member>)
    requires t == OnlyParents(t.channels, t.groups).(items := [row])
    requires ItemStands(t, ExistingIn(WithParents(db, t)), row)
    ensures Kept(db, t) == t
    ensures RestRefusal(WithParents(db, t), t) ==
      Check(db.items, row, SameMember, HasGroupAndGrant(WithParents(db, t)), true)
    ensures WithRest(WithParents(db, t), t) == WithParents(db, t).(items := Insert(db.items, row, SameMember, true))
  {
    var db1 := WithParents(db, t);
    var e := ExistingIn(db1);
    assert AfterKeysAndModels(t, e) == t && AfterGrants(t, e) == t;
    KeepOne(row, ItemOk(t, e));
    assert AfterItems(t, e) == t;
    RefusalOfOne(db.items, row, SameMember, HasGroupAndGrant(db1), true);
  }

  /** A dumped item of a dumped group that was skipped is kept, and then refused. */
  lemma SkippedGroupRefused(db: Db, channels: seq<Row<Named>>, groups: seq<Row<Named>>) returns (t: Tables)
    requires Sound(db) && !AllLand(db.groups, groups)
    ensures t.channels == channels && t.groups == groups && Imported(db, t) == Refused(MissingParent)
  {
    AllLandExactly(db.groups, groups);
    var g :| g in IdsOf(groups) && g !in AddAll(db.groups, groups, SameName, true).rows;
    var row := Row(0, Member(g, None, None));
    t := OnlyParents(channels, groups).(items := [row]);
    OnlyItem(db, t, row);
  }

  /** A dumped item that has a skipped group as its child goes in and dangles. */
  lemma SkippedGroupDangles(db: Db, channels: seq<Row<Named>>, groups: seq<Row<Named>>) returns (t: Tables)
    requires Intact(db) && !AllLand(db.groups, groups)
    ensures t.channels == channels && t.groups == groups && Imported(db, t).Done? && !Intact(Imported(db, t).db)
  {
    AllLandExactly(db.groups, groups);
    var landed := AddAll(db.groups, groups, SameName, true);
    var g :| g in IdsOf(groups) && g !in landed.rows;
    var i :| 0 <= i < |groups| && groups[i].id == g;
    AddAllConflicts(db.groups, groups, SameName, groups[i]);
    var h :| h in landed.rows;
    var row := Row(0, Member(h, None, Some(g)));
    t := OnlyParents(channels, groups).(items := [row]);
    ParentsKeepSound(db, t);
    OnlyItem(db, t, row);
    assert !Conflicts(db.items, row, SameMember);
    assert Imported(db, t).db.items.rows[db.items.next] == row.cols;
  }

  /** No import with these channels and groups is refused for a missing parent, whatever else is in the dump. */
  ghost predicate NeverMissing(db: Db, channels: seq<Row<Named>>, groups: seq<Row<Named>>) {
    forall t: Tables :: t.channels == channels && t.groups == groups ==> Imported(db, t) != Refused(MissingParent)
  }

  /** No import with these channels and groups that goes through leaves a dangling reference. */
  ghost predicate StaysIntact(db: Db, channels: seq<Row<Named>>, groups: seq<Row<Named>>) {
    forall t: Tables :: t.channels == channels && t.groups == groups && Imported(db, t).Done? ==>
      Intact(Imported(db, t).db)
  }

  /** A parent can be missing exactly when a dumped channel or group does not land. */
  lemma NeverMissingExactly(db: Db, channels: seq<Row<Named>>, groups: seq<Row<Named>>)
    requires Sound(db)
    ensures NeverMissing(db, channels, groups) <==> AllLand(db.channels, channels) && AllLand(db.groups, groups)
  {
    if !AllLand(db.channels, channels) {
      var t := SkippedChannelRefused(db, channels, groups);
    } else if !AllLand(db.groups, groups) {
      var t := SkippedGroupRefused(db, channels, groups);
    } else {
      forall t: Tables | t.channels == channels && t.groups == groups
        ensures Imported(db, t) != Refused(MissingParent)
      {
        LandedNotMissing(db, t);
      }
    }
  }

  /** For dumped tables: exactly when a new channel or a new group has a name that is taken. */
  lemma NeverMissingByNames(db: Db, channels: seq<Row<Named>>, groups: seq<Row<Named>>)
    requires Sound(db) && Keyed(channels) && Keyed(groups)
    ensures NeverMissing(db, channels, groups) <==>
      NewNamesFree(db.channels, channels) && NewNamesFree(db.groups, groups)
  {
    NeverMissingExactly(db, channels, groups);
    LandsExactlyIfFree(db.channels, channels);
    LandsExactlyIfFree(db.groups, groups);
  }

  /** A reference can be left dangling exactly when a dumped group does not land. */
  lemma StaysIntactExactly(db: Db, channels: seq<Row<Named>>, groups: seq<Row<Named>>)
    requires Intact(db)
    ensures StaysIntact(db, channels, groups) <==> AllLand(db.groups, groups)
  {
    if AllLand(db.groups, groups) {
      AllLandExactly(db.groups, groups);
      forall t: Tables | t.channels == channels && t.groups == groups && Imported(db, t).Done?
        ensures Intact(Imported(db, t).db)
      {
        DanglesExactly(db, t);
      }
    } else {
      var t := SkippedGroupDangles(db, channels, groups);
    }
  }

  // ---------- A backup restores what was lost ----------

  /** The list holds the rows of the table, in any order. */
  ghost predicate Lists<T>(rows: seq<Row<T>>, t: Table<T>) {
    IdsOf(rows) == t.rows.Keys && forall r :: r in rows ==> r.id in t.rows && t.rows[r.id] == r.cols
  }

  /** A dump of the whole database. */
  ghost predicate IsExport(db: Db, t: Tables) {
    && Lists(t.channels, db.channels) && Lists(t.keys, db.keys) && Lists(t.models, db.models)
    && Lists(t.grants, db.grants)
    && Lists(t.groups, db.groups) && Lists(t.items, db.items) && Lists(t.apiKeys, db.apiKeys)
    && Lists(t.stats, db.stats)
  }

  ghost predicate Part<T>(t: Table<T>, full: Table<T>) {
    forall k :: k in t.rows ==> k in full.rows && t.rows[k] == full.rows[k]
  }

  /** Rows may be missing, but no row is different. */
  ghost predicate PartOf(some: Db, db: Db) {
    && Part(some.channels, db.channels) && Part(some.keys, db.keys) && Part(some.models, db.models)
    && Part(some.grants, db.grants)
    && Part(some.groups, db.groups) && Part(some.items, db.items) && Part(some.apiKeys, db.apiKeys)
    && Part(some.stats, db.stats)
  }

  predicate SameRows(x: Db, y: Db) {
    && x.channels.rows == y.channels.rows && x.keys.rows == y.keys.rows && x.models.rows == y.models.rows
    && x.grants.rows == y.grants.rows
    && x.groups.rows == y.groups.rows && x.items.rows == y.items.rows && x.apiKeys.rows == y.apiKeys.rows
    && x.stats.rows == y.stats.rows
  }

  lemma {:induction false} RefillPart<T>(t: Table<T>, rows: seq<Row<T>>, full: Table<T>, same: (T, T) -> bool,
      stands: T -> bool, doNothing: bool)
    requires Part(t, full) && Numbered(full) && Unique(full, same)
    requires forall r :: r in rows ==> r.id in full.rows && full.rows[r.id] == r.cols && stands(r.cols)
    ensures Part(AddAll(t, rows, same, doNothing), full) && IdsOf(rows) <= AddAll(t, rows, same, doNothing).rows.Keys
    ensures Refusal(t, rows, same, stands, doNothing) == None
  {
    if rows != [] {
      var init, last := rows[..|rows| - 1], rows[|rows| - 1];
      assert rows == init + [last];
      RefillPart(t, init, full, same, stands, doNothing);
      var a := AddAll(t, init, same, doNothing);
      assert last in rows;
      forall x | x in IdsOf(rows) ensures x in AddAll(t, rows, same, doNothing).rows {
        var i :| 0 <= i < |rows| && rows[i].id == x && x != 0;
        if i < |rows| - 1 {
          assert init[i].id == x && x in IdsOf(init);
        }
      }
    }
  }

  lemma Refill<T>(t: Table<T>, rows: seq<Row<T>>, full: Table<T>, same: (T, T) -> bool, stands: T -> bool,
      doNothing: bool)
    requires Part(t, full) && Numbered(full) && Unique(full, same) && Lists(rows, full) && AllStand(full, stands)
    ensures AddAll(t, rows, same, doNothing).rows == full.rows && Refusal(t, rows, same, stands, doNothing) == None
  {
    forall r | r in rows ensures stands(r.cols) {
      assert stands(full.rows[r.id]);
    }
    RefillPart(t, rows, full, same, stands, doNothing);
    WholePart(AddAll(t, rows, same, doNothing), full);
  }

  lemma WholePart<T>(t: Table<T>, full: Table<T>)
    requires Part(t, full) && full.rows.Keys <= t.rows.Keys
    ensures t.rows == full.rows
  {
    forall k | k in t.rows.Keys ensures k in full.rows.Keys {
    }
    assert t.rows.Keys == full.rows.Keys;
    forall k | k in full.rows.Keys ensures t.rows[k] == full.rows[k] {
    }
  }

  lemma {:induction false} KeepAll<T>(rows: seq<Row<T>>, ok: Row<T> -> bool)
    requires forall r :: r in rows ==> ok(r)
    ensures Keep(rows, ok) == rows
  {
    if rows != [] {
      assert rows == rows[..|rows| - 1] + [rows[|rows| - 1]];
      KeepAll(rows[..|rows| - 1], ok);
    }
  }

  lemma ClosedIsKept(t: Tables, e: Existing)
    requires Closed(t, e)
    ensures Sanitized(t, e) == t
  {
    KeepAll(t.keys, ChildOk(t, e));
    KeepAll(t.models, ChildOk(t, e));
    assert AfterKeysAndModels(t, e) == t;
    KeepAll(t.grants, GrantOk(t, e));
    assert AfterGrants(t, e) == t;
    KeepAll(t.items, ItemOk(t, e));
    assert AfterItems(t, e) == t;
    KeepAll(t.stats, StatsOk(t, e));
  }

  lemma ExportIsClosed(db: Db, t: Tables, e: Existing)
    requires Intact(db) && IsExport(db, t)
    ensures Closed(t, e)
  {
    forall r | r in t.items ensures ItemStands(t, e, r) {
      assert HasGroupAndGrant(db)(db.items.rows[r.id]) && ChildThere(db, db.items.rows[r.id]);
    }
    forall r | r in t.keys ensures ChildStands(t, e, r) { assert HasChannel(db)(db.keys.rows[r.id]); }
    forall r | r in t.models ensures ChildStands(t, e, r) { assert HasChannel(db)(db.models.rows[r.id]); }
    forall r | r in t.grants ensures GrantStands(t, e, r) { assert HasModelAndKey(db)(db.grants.rows[r.id]); }
  }

  /** Importing a dump of an intact database where rows of it are missing brings all of them back and
      changes nothing else. So it restores an empty database, and an import into the database it was
      taken from is idle. */
  lemma BackupRestores(some: Db, db: Db, t: Tables)
    requires Intact(db) && IsExport(db, t) && PartOf(some, db)
    ensures Imported(some, t).Done? && SameRows(Imported(some, t).db, db)
  {
    Refill(some.channels, t.channels, db.channels, SameName, Anything(), true);
    Refill(some.groups, t.groups, db.groups, SameName, Anything(), true);
    var db1 := WithParents(some, t);
    ExportIsClosed(db, t, ExistingIn(db1));
    ClosedIsKept(t, ExistingIn(db1));
    RestRestored(db1, db, t);
  }

  lemma RestRestored(some: Db, db: Db, t: Tables)
    requires Intact(db) && IsExport(db, t) && PartOf(some, db)
    requires some.channels.rows == db.channels.rows && some.groups.rows == db.groups.rows
    ensures RestRefusal(some, t) == None && SameRows(WithRest(some, t), db)
  {
    Refill(some.keys, t.keys, db.keys, SameChild, HasChannel(some), false);
    Refill(some.models, t.models, db.models, SameChild, HasChannel(some), false);
    var db2 := WithChildren(some, t);
    Refill(some.grants, t.grants, db.grants, SamePair, HasModelAndKey(db2), false);
    var db3 := WithGrants(db2, t);
    Refill(some.items, t.items, db.items, SameMember, HasGroupAndGrant(db3), true);
    Refill(some.apiKeys, t.apiKeys, db.apiKeys, Never, Anything(), true);
    Refill(some.stats, t.stats, db.stats, Never, Anything(), false);
  }
}
