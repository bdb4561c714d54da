/** What an import writes, table by table: a skipping insert touches nothing that is there, an overwriting one
    leaves the last row of each id. */
module BackupWritten {
  import opened Common
  import opened Backup
  import opened BackupImport
  import opened BackupRepeat

  /** Rows that are there stay as they are; a new one is a row of the list, under its own id or a fresh one. */
  ghost predicate SkippedOver<T(!new)>(before: Table<T>, after: Table<T>, rows: seq<Row<T>>) {
    && (forall k :: k in before.rows ==> k in after.rows && after.rows[k] == before.rows[k])
    && (forall k :: k in after.rows && k !in before.rows ==> EnteredBy(rows, k, after.rows[k]))
  }

  /** A row of the list with these columns, of that id or of none. */
  ghost predicate EnteredBy<T(!new)>(rows: seq<Row<T>>, k: int, cols: T) {
    exists r :: r in rows && r.cols == cols && (r.id == k || r.id == 0)
  }

  /** An id of the list has what its last row says; any other row stays as it is; what else is new is a row without
      an id. */
  ghost predicate WrittenOver<T(!new)>(before: Table<T>, after: Table<T>, rows: seq<Row<T>>) {
    forall k :: k != 0 ==> WrittenAt(before, after, rows, k)
  }

  ghost predicate WrittenAt<T(!new)>(before: Table<T>, after: Table<T>, rows: seq<Row<T>>, k: int) {
    match LastAt(rows, k)
    case Some(cols) => k in after.rows && after.rows[k] == cols
    case None =>
      && (k in before.rows ==> k in after.rows && after.rows[k] == before.rows[k])
      && (k in after.rows && k !in before.rows ==> exists r :: r in rows && r.cols == after.rows[k] && r.id == 0)
  }

  lemma {:induction false} SkipKeeps<T(!new)>(t: Table<T>, rows: seq<Row<T>>, same: (T, T) -> bool)
    requires Numbered(t)
    ensures SkippedOver(t, AddAll(t, rows, same, true), rows)
  {
    if rows != [] {
      var init, last := rows[..|rows| - 1], rows[|rows| - 1];
      assert rows == init + [last];
      SkipKeeps(t, init, same);
      AddAllGrows(t, init, same, true);
      var after := AddAll(t, rows, same, true);
      forall k | k in after.rows && k !in t.rows ensures EnteredBy(rows, k, after.rows[k]) {
        if k in AddAll(t, init, same, true).rows {
          assert EnteredBy(init, k, after.rows[k]);
        }
      }
    }
  }

  lemma {:induction false} OverwritesLast<T(!new)>(t: Table<T>, rows: seq<Row<T>>, same: (T, T) -> bool, k: int)
    requires Numbered(t) && k != 0
    ensures WrittenAt(t, AddAll(t, rows, same, false), rows, k)
  {
    if rows != [] {
      var init, last := rows[..|rows| - 1], rows[|rows| - 1];
      assert rows == init + [last];
      OverwritesLast(t, init, same, k);
      AddAllGrows(t, init, same, false);
    }
  }

  lemma Overwrites<T(!new)>(t: Table<T>, rows: seq<Row<T>>, same: (T, T) -> bool)
    requires Numbered(t)
    ensures WrittenOver(t, AddAll(t, rows, same, false), rows)
  {
    forall k | k != 0 ensures WrittenAt(t, AddAll(t, rows, same, false), rows, k) {
      OverwritesLast(t, rows, same, k);
    }
  }

  /** What a completed import leaves: channels, groups, items and API keys that were there are untouched, and the
      rows that were kept of the other tables are written over what was there. */
  lemma ImportWrites(db: Db, t: Tables)
    requires AllNumbered(db) && Imported(db, t).Done?
    ensures var r, s := Imported(db, t).db, Kept(db, t);
      && SkippedOver(db.channels, r.channels, t.channels) && SkippedOver(db.groups, r.groups, t.groups)
      && SkippedOver(db.items, r.items, s.items) && SkippedOver(db.apiKeys, r.apiKeys, s.apiKeys)
      && WrittenOver(db.keys, r.keys, s.keys) && WrittenOver(db.models, r.models, s.models)
      && WrittenOver(db.grants, r.grants, s.grants) && WrittenOver(db.stats, r.stats, s.stats)
  {
    var s := Kept(db, t);
    SkipKeeps(db.channels, t.channels, SameName);
    SkipKeeps(db.groups, t.groups, SameName);
    SkipKeeps(db.items, s.items, SameMember);
    SkipKeeps(db.apiKeys, s.apiKeys, Never);
    Overwrites(db.keys, s.keys, SameChild);
    Overwrites(db.models, s.models, SameChild);
    Overwrites(db.grants, s.grants, SamePair);
    Overwrites(db.stats, s.stats, Never);
  }

  /** An item that is there for a kept one: of its id, of its group and target, or just like it. */
  predicate StandsFor(k: int, there: Member, r: Row<Member>) {
    || (k == r.id && k != 0) || there == r.cols
    || (there.group == r.cols.group
        && ((r.cols.grant.Some? && there.grant == r.cols.grant) || (r.cols.child.Some? && there.child == r.cols.child)))
  }

  lemma {:induction false} ItemsThere(t: Table<Member>, rows: seq<Row<Member>>, r: Row<Member>) returns (k: int)
    requires Numbered(t) && r in rows
    ensures var a := AddAll(t, rows, SameMember, true); k in a.rows && StandsFor(k, a.rows[k], r)
  {
    var init, last := rows[..|rows| - 1], rows[|rows| - 1];
    var a := AddAll(t, init, SameMember, true);
    AddAllGrows(t, init, SameMember, true);
    if r in init {
      k := ItemsThere(t, init, r);
    } else if r.id in a.rows {
      k := r.id;
    } else if j :| j in a.rows && SameMember(a.rows[j], r.cols) {
      k := j;
    } else {
      k := IdFor(a, r);
    }
  }

  /** No kept item is lost: one of its id, or one of its group and target, is there afterwards. */
  lemma KeptItemsThere(db: Db, t: Tables)
    requires AllNumbered(db) && Imported(db, t).Done?
    ensures var items := Imported(db, t).db.items.rows;
      forall r :: r in Kept(db, t).items ==> exists k :: k in items && StandsFor(k, items[k], r)
  {
    forall r | r in Kept(db, t).items
      ensures exists k :: k in Imported(db, t).db.items.rows && StandsFor(k, Imported(db, t).db.items.rows[k], r)
    {
      var k := ItemsThere(db.items, Kept(db, t).items, r);
    }
  }

  // ---------- What counts as there twice ----------

  /** A grant that is written over its id is refused as a duplicate exactly when another row has its model and
      key; what else refuses it is looked at only then. */
  lemma GrantTwiceExactly(t: Table<Pair>, r: Row<Pair>, stands: Pair -> bool)
    ensures Check(t, r, SamePair, stands, false) == Some(DuplicateRow) <==>
      exists k :: k in t.rows && k != r.id && t.rows[k].model == r.cols.model && t.rows[k].key == r.cols.key
  {
    if k :| k in t.rows && k != r.id && t.rows[k].model == r.cols.model && t.rows[k].key == r.cols.key {
      assert SamePair(t.rows[k], r.cols);
    }
  }

  /** The same for a key or a model: another row has its channel and name. */
  lemma ChildTwiceExactly(t: Table<Child>, r: Row<Child>, stands: Child -> bool)
    ensures Check(t, r, SameChild, stands, false) == Some(DuplicateRow) <==>
      exists k :: k in t.rows && k != r.id && t.rows[k].channel == r.cols.channel && t.rows[k].name == r.cols.name
  {
    if k :| k in t.rows && k != r.id && t.rows[k].channel == r.cols.channel && t.rows[k].name == r.cols.name {
      assert SameChild(t.rows[k], r.cols);
    }
  }

  /** An item enters exactly when its id is not taken, nor its grant or its child within the group. */
  lemma ItemEntersExactly(t: Table<Member>, r: Row<Member>)
    requires Numbered(t)
    ensures Insert(t, r, SameMember, true) != t <==>
      && r.id !in t.rows
      && !(exists k :: k in t.rows && t.rows[k].group == r.cols.group
            && ((r.cols.grant.Some? && t.rows[k].grant == r.cols.grant)
                || (r.cols.child.Some? && t.rows[k].child == r.cols.child)))
  {
    if !Conflicts(t, r, SameMember) {
      assert IdFor(t, r) in Put(t, r).rows && IdFor(t, r) !in t.rows;
    }
    if k :| k in t.rows && SameMember(t.rows[k], r.cols) {
      assert t.rows[k].group == r.cols.group;
    }
  }
}
