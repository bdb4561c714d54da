/** API keys: a table, a cache of its rows by id and an index of key strings, kept in step by hand.
    The module says for every run exactly when a lookup by string finds the right key. */
module ApiKeys {
  import opened Common

  /** `allowed` is the list of source addresses a key may be used from; `rest` is what no operation looks at. */
  datatype Key = Key(id: int, secret: string, allowed: seq<string>, rest: string)

  datatype Op = Create(key: Key) | Update(key: Key) | Delete(id: int)

  /** The table and the two caches; `next` is the next id the table gives out. */
  datatype State = State(table: map<int, Key>, keys: map<int, Key>, index: map<string, int>, next: int)

  const EMPTY := State(map[], map[], map[], 1)

  // ---------- Operations ----------

  /** An update without a string keeps the one the key has. */
  function Effective(s: State, k: Key): Key
    requires k.id in s.keys
  {
    if k.secret == "" then k.(secret := s.keys[k.id].secret) else k
  }

  /** The insert names its columns and leaves the address list out: the row has none, the cache has it. */
  function Created(s: State, key: Key): State {
    var k := key.(id := s.next);
    State(s.table[k.id := k.(allowed := [])], s.keys[k.id := k], s.index[k.secret := k.id], s.next + 1)
  }

  /** What two states have for an id: the row and the cached copy, or none of either. */
  predicate SameAt(s: State, t: State, id: int) {
    && (id in t.table <==> id in s.table) && (id in s.table && id in t.table ==> t.table[id] == s.table[id])
    && (id in t.keys <==> id in s.keys) && (id in s.keys && id in t.keys ==> t.keys[id] == s.keys[id])
  }

  /** A create: under the next id the cache has what was submitted, and the row all of it but the address
      list; every other id keeps what it has. */
  ghost predicate Enters(s: State, t: State, key: Key) {
    && s.next in t.table && s.next in t.keys && t.next == s.next + 1
    && t.keys[s.next].id == s.next && t.table[s.next].id == s.next
    && t.keys[s.next].secret == key.secret && t.table[s.next].secret == key.secret
    && t.keys[s.next].rest == key.rest && t.table[s.next].rest == key.rest
    && t.keys[s.next].allowed == key.allowed && t.table[s.next].allowed == []
    && forall id :: id != s.next ==> SameAt(s, t, id)
  }

  /** An update of a cached id: row and copy are what was submitted, the string the old one when none was
      submitted; every other id keeps what it has. An id that is not cached changes nothing. */
  ghost predicate Rewrites(s: State, t: State, key: Key) {
    && (key.id !in s.keys ==> t == s)
    && (key.id in s.keys ==>
          && key.id in t.table && key.id in t.keys && t.table[key.id] == t.keys[key.id]
          && t.keys[key.id].id == key.id && t.keys[key.id].allowed == key.allowed && t.keys[key.id].rest == key.rest
          && (key.secret != "" ==> t.keys[key.id].secret == key.secret)
          && (key.secret == "" ==> t.keys[key.id].secret == s.keys[key.id].secret))
    && t.next == s.next && forall id :: id != key.id ==> SameAt(s, t, id)
  }

  /** A delete: row and copy are gone, every other id keeps what it has. */
  ghost predicate Removes(s: State, t: State, id: int) {
    && (id !in s.table ==> t == s)
    && (id in s.table ==> id !in t.table && id !in t.keys)
    && t.next == s.next && forall other :: other != id ==> SameAt(s, t, other)
  }

  function Updated(s: State, key: Key): State {
    if key.id !in s.keys then s
    else
      var k, existing := Effective(s, key), s.keys[key.id];
      var index := if k.secret == existing.secret then s.index else (s.index - {existing.secret})[k.secret := k.id];
      State(s.table[k.id := k], s.keys[k.id := k], index, s.next)
  }

  /** The string removed from the index is the empty one: the key at hand carries nothing but its id. */
  function Deleted(s: State, id: int): State {
    if id !in s.table then s
    else State(s.table - {id}, s.keys - {id}, s.index - {""}, s.next)
  }

  function Step(s: State, op: Op): State {
    match op
    case Create(key) => Created(s, key)
    case Update(key) => Updated(s, key)
    case Delete(id) => Deleted(s, id)
  }

  function Run(s: State, ops: seq<Op>): State
    decreases |ops|
  {
    if ops == [] then s else Run(Step(s, ops[0]), ops[1..])
  }

  function Lookup(s: State, secret: string): Option<Key> {
    if secret in s.index && s.index[secret] in s.keys then Some(s.keys[s.index[secret]]) else None
  }

  // ---------- What the caches promise ----------

  predicate Holds(s: State, id: int, secret: string) { id in s.table && s.table[id].secret == secret }

  /** A row and its cached copy differ in the address list at most. */
  predicate SameKey(s: State, id: int) {
    && (id in s.table <==> id in s.keys)
    && (id in s.table ==>
          && id < s.next && s.keys[id].id == id && s.table[id].id == id
          && s.keys[id].(allowed := s.table[id].allowed) == s.table[id])
  }

  /** Holds of every run: cached rows are the rows of the table, and no id given out is still to come. */
  ghost predicate Sound(s: State) {
    && (forall id :: SameKey(s, id))
    && (forall x :: x in s.index ==> s.index[x] < s.next)
  }

  predicate Finds(s: State, secret: string, id: int) {
    var found := Lookup(s, secret);
    found.Some? && found.value.id == id
  }

  /** A lookup finds a key exactly when the key is live and has that string. */
  ghost predicate Right(s: State) { forall secret, id :: Finds(s, secret, id) <==> Holds(s, id, secret) }

  /** What the caller can see before the call: no other live key has the string that is written, and
      nothing is deleted while another live key has the empty string. */
  ghost predicate Clear(s: State, op: Op) {
    match op
    case Create(key) => forall id :: !Holds(s, id, key.secret)
    case Update(key) => key.id in s.keys ==> forall id :: Holds(s, id, Effective(s, key).secret) ==> id == key.id
    case Delete(id) => id in s.table ==> forall other :: Holds(s, other, "") ==> other == id
  }

  lemma WrittenExactly(s: State, key: Key, id: int)
    ensures Enters(s, Created(s, key), key) && Rewrites(s, Updated(s, key), key) && Removes(s, Deleted(s, id), id)
  {
    assert key.id in s.keys ==> Effective(s, key).id == key.id;
  }

  lemma StepIsSound(s: State, op: Op)
    requires Sound(s)
    ensures Sound(Step(s, op))
  {
    var t := Step(s, op);
    forall id ensures SameKey(t, id) {
      assert SameKey(s, id);
      match op
      case Create(_) =>
      case Update(key) => assert SameKey(s, key.id);
      case Delete(_) =>
    }
    assert op.Update? ==> SameKey(s, op.key.id);
    assert op.Create? ==> SameKey(s, s.next);
  }

  lemma CreateRightExactly(s: State, key: Key)
    requires Sound(s) && Right(s)
    ensures Right(Created(s, key)) <==> Clear(s, Create(key))
  {
    var t := Created(s, key);
    assert SameKey(s, s.next);
    assert Finds(t, key.secret, s.next);
    if Clear(s, Create(key)) {
      forall x, id ensures Finds(t, x, id) <==> Holds(t, id, x) {
        assert SameKey(s, id);
        assert Finds(s, x, id) <==> Holds(s, id, x);
        assert x in s.index ==> SameKey(s, s.index[x]);
      }
    } else {
      var id :| Holds(s, id, key.secret);
      assert SameKey(s, id);
      assert Holds(t, id, key.secret) && !Finds(t, key.secret, id);
    }
  }

  lemma UpdateRightExactly(s: State, key: Key)
    requires Sound(s) && Right(s)
    ensures Right(Updated(s, key)) <==> Clear(s, Update(key))
  {
    var t := Updated(s, key);
    if key.id in s.keys {
      var k := Effective(s, key);
      assert SameKey(s, key.id);
      assert Holds(s, key.id, s.keys[key.id].secret);
      if Clear(s, Update(key)) {
        forall x, id ensures Finds(t, x, id) <==> Holds(t, id, x) {
          assert Finds(s, x, id) <==> Holds(s, id, x);
          assert Finds(s, x, key.id) <==> Holds(s, key.id, x);
          assert SameKey(s, id);
          assert x in s.index ==> SameKey(s, s.index[x]);
        }
      } else {
        var id :| Holds(s, id, k.secret) && id != key.id;
        assert Finds(s, k.secret, id);
        assert k.secret != s.keys[key.id].secret by {
          assert Finds(s, s.keys[key.id].secret, key.id);
        }
        assert Holds(t, id, k.secret) && Finds(t, k.secret, key.id) && !Finds(t, k.secret, id);
      }
    }
  }

  lemma DeleteRightExactly(s: State, id: int)
    requires Sound(s) && Right(s)
    ensures Right(Deleted(s, id)) <==> Clear(s, Delete(id))
  {
    var t := Deleted(s, id);
    if id in s.table {
      assert SameKey(s, id);
      if Clear(s, Delete(id)) {
        forall x, other ensures Finds(t, x, other) <==> Holds(t, other, x) {
          assert Finds(s, x, other) <==> Holds(s, other, x);
          assert x in s.index ==> SameKey(s, s.index[x]);
        }
      } else {
        var other :| Holds(s, other, "") && other != id;
        assert Holds(t, other, "") && !Finds(t, "", other);
      }
    }
  }

  // ---------- Whole runs ----------

  ghost predicate AlwaysRight(s: State, ops: seq<Op>)
    decreases |ops|
  {
    Right(s) && (ops == [] || AlwaysRight(Step(s, ops[0]), ops[1..]))
  }

  ghost predicate AlwaysClear(s: State, ops: seq<Op>)
    decreases |ops|
  {
    ops == [] || (Clear(s, ops[0]) && AlwaysClear(Step(s, ops[0]), ops[1..]))
  }

  /** Lookups are right after every step of a run exactly when every step was clear. */
  lemma {:induction false} RightExactlyWhenClear(s: State, ops: seq<Op>)
    requires Sound(s) && Right(s)
    ensures AlwaysRight(s, ops) <==> AlwaysClear(s, ops)
    ensures Sound(Run(s, ops))
    decreases |ops|
  {
    if ops != [] {
      var op := ops[0];
      StepIsSound(s, op);
      match op {
        case Create(key) => CreateRightExactly(s, key);
        case Update(key) => UpdateRightExactly(s, key);
        case Delete(id) => DeleteRightExactly(s, id);
      }
      RunIsSound(Step(s, op), ops[1..]);
      if Right(Step(s, op)) {
        RightExactlyWhenClear(Step(s, op), ops[1..]);
      }
    }
  }

  lemma {:induction false} RunIsSound(s: State, ops: seq<Op>)
    requires Sound(s)
    ensures Sound(Run(s, ops))
    decreases |ops|
  {
    if ops != [] {
      StepIsSound(s, ops[0]);
      RunIsSound(Step(s, ops[0]), ops[1..]);
    }
  }

  lemma EmptyIsRight()
    ensures Sound(EMPTY) && Right(EMPTY)
  {
  }

  /** Deleting another key hides a live key whose string is empty. */
  lemma EmptyStringIsLost(a: Key, b: Key)
    requires a.secret == "" && b.secret != ""
    ensures var s := Run(EMPTY, [Create(a), Create(b)]);
      && Right(s) && Lookup(s, "") == Some(a.(id := 1))
      && Lookup(Deleted(s, 2), "") == None && Holds(Deleted(s, 2), 1, "")
  {
    var ops := [Create(a), Create(b)];
    assert ops[1..] == [Create(b)] && [Create(b)][1..] == [];
    var s1 := Created(EMPTY, a);
    EmptyIsRight();
    CreateRightExactly(EMPTY, a);
    StepIsSound(EMPTY, Create(a));
    CreateRightExactly(s1, b);
    assert Run(EMPTY, ops) == Run(s1, ops[1..]) == Created(s1, b);
  }

  // ---------- The address list ----------

  /** A key whose cached copy is its row: one created without an address list, or updated since. */
  predicate Synced(s: State, id: int) { id in s.table && id in s.keys && s.table[id] == s.keys[id] }

  /** Ids whose row was last written by an insert that dropped an address list. */
  function Dropped(s: State, ops: seq<Op>): set<int> {
    if ops == [] then {}
    else
      var init := ops[..|ops| - 1];
      var before, op := Dropped(s, init), ops[|ops| - 1];
      match op
      case Create(key) => if key.allowed == [] then before else before + {Run(s, init).next}
      case Update(key) => before - {key.id}
      case Delete(id) => before - {id}
  }

  lemma {:induction false} RunSnoc(s: State, ops: seq<Op>)
    requires ops != []
    ensures Run(s, ops) == Step(Run(s, ops[..|ops| - 1]), ops[|ops| - 1])
    decreases |ops|
  {
    if |ops| > 1 {
      RunSnoc(Step(s, ops[0]), ops[1..]);
      assert ops[1..][..|ops| - 2] == ops[..|ops| - 1][1..];
    } else {
      assert ops[1..] == [] && ops[..0] == [];
    }
  }

  /** After any run from nothing a cached key equals its row exactly when no list was dropped from it. */
  lemma {:induction false} CachedExactlyUnlessDropped(ops: seq<Op>)
    ensures var s := Run(EMPTY, ops);
      && Sound(s)
      && (forall id :: id in Dropped(EMPTY, ops) ==> id in s.table)
      && (forall id :: id in s.table ==> (Synced(s, id) <==> id !in Dropped(EMPTY, ops)))
  {
    if ops == [] {
      EmptyIsRight();
    } else {
      var init, op := ops[..|ops| - 1], ops[|ops| - 1];
      var s, t := Run(EMPTY, init), Run(EMPTY, ops);
      CachedExactlyUnlessDropped(init);
      RunSnoc(EMPTY, ops);
      StepIsSound(s, op);
      assert SameKey(s, s.next);
      forall id | id in t.table ensures Synced(t, id) <==> id !in Dropped(EMPTY, ops) {
        assert SameKey(s, id) && SameKey(t, id);
        assert id in s.table ==> (Synced(s, id) <==> id !in Dropped(EMPTY, init));
      }
      forall id | id in Dropped(EMPTY, ops) ensures id in t.table {
        assert id in Dropped(EMPTY, init) ==> id in s.table;
        assert SameKey(s, id);
      }
    }
  }

  /** A key created with an address list is restricted in the cache and not in its row; caches filled
      again from the table no longer restrict it. */
  lemma AddressListIsDropped(key: Key)
    requires key.allowed != []
    ensures var s := Created(EMPTY, key);
      && s == Run(EMPTY, [Create(key)])
      && Lookup(s, key.secret) == Some(key.(id := 1))
      && Lookup(State(s.table, s.table, Indexed(s.table, [1]), s.next), key.secret) ==
        Some(key.(id := 1, allowed := []))
  {
    var ops := [Create(key)];
    assert ops[1..] == [] && [1][..0] == [];
  }

  // ---------- Filling the caches ----------

  /** The index after the rows were entered one after the other. */
  function Indexed(table: map<int, Key>, rows: seq<int>): map<string, int>
    requires forall id :: id in rows ==> id in table
  {
    if rows == [] then map[]
    else
      var id := rows[|rows| - 1];
      Indexed(table, rows[..|rows| - 1])[table[id].secret := id]
  }

  ghost predicate DistinctSecrets(table: map<int, Key>) {
    forall i, j :: i in table && j in table && table[i].secret == table[j].secret ==> i == j
  }

  ghost predicate Numbered(table: map<int, Key>, next: int) {
    forall id :: id in table ==> table[id].id == id < next
  }

  lemma {:induction false} IndexedFacts(table: map<int, Key>, rows: seq<int>)
    requires forall id :: id in rows ==> id in table
    ensures forall x :: x in Indexed(table, rows) ==>
      Indexed(table, rows)[x] in rows && table[Indexed(table, rows)[x]].secret == x
    ensures forall id :: id in rows ==> table[id].secret in Indexed(table, rows)
  {
    if rows != [] {
      var init := rows[..|rows| - 1];
      IndexedFacts(table, init);
      assert rows == init + [rows[|rows| - 1]];
    }
  }

  /** Caches filled from the table in any order are right exactly when no two rows share a string. */
  lemma FilledRightExactly(table: map<int, Key>, rows: seq<int>, next: int)
    requires (forall id :: id in rows <==> id in table) && Numbered(table, next)
    ensures var s := State(table, table, Indexed(table, rows), next);
      Sound(s) && (Right(s) <==> DistinctSecrets(table))
  {
    var s := State(table, table, Indexed(table, rows), next);
    IndexedFacts(table, rows);
    forall id ensures SameKey(s, id) {
    }
    if DistinctSecrets(table) {
      forall x, id ensures Finds(s, x, id) <==> Holds(s, id, x) {
        if Holds(s, id, x) {
          assert table[id].secret in s.index && table[s.index[x]].secret == x;
          assert s.index[x] in table;
        }
        if x in s.index {
          assert s.index[x] in rows && s.index[x] in table && table[s.index[x]].id == s.index[x];
        }
      }
    } else {
      var i, j :| i in table && j in table && table[i].secret == table[j].secret && i != j;
      assert Holds(s, i, table[i].secret) && Holds(s, j, table[i].secret);
      assert !Finds(s, table[i].secret, i) || !Finds(s, table[i].secret, j);
    }
  }

  lemma SameRows(m: map<int, Key>, n: map<int, Key>)
    requires forall id :: id in m <==> id in n
    requires forall id :: id in m ==> m[id] == n[id]
    ensures m == n
  {
    forall id ensures id in m <==> id in n {
    }
    assert m.Keys == n.Keys;
    forall id | id in m.Keys ensures m[id] == n[id] {
    }
  }

  // ---------- The store ----------

  class Store {
    var table: map<int, Key>
    var apiKeyCache: map<int, Key>
    var apiKeyIDMap: map<string, int>
    var next: int

    ghost function Now(): State
      reads this
    {
      State(table, apiKeyCache, apiKeyIDMap, next)
    }

    constructor ()
      ensures Now() == EMPTY
    {
      table, apiKeyCache, apiKeyIDMap, next := map[], map[], map[], 1;
    }

    method APIKeyCreate(key: Key) returns (id: int)
      modifies this
      ensures Now() == Created(old(Now()), key) && id == old(next) && Enters(old(Now()), Now(), key)
    {
      id := next;
      var k := key.(id := id);
      table := table[id := k.(allowed := [])];
      next := next + 1;
      apiKeyCache := apiKeyCache[id := k];
      apiKeyIDMap := apiKeyIDMap[k.secret := id];
    }

    method APIKeyUpdate(key: Key) returns (ok: bool)
      modifies this
      ensures Now() == Updated(old(Now()), key) && ok == (key.id in old(apiKeyCache))
      ensures Rewrites(old(Now()), Now(), key)
    {
      if key.id !in apiKeyCache {
        return false;
      }
      var k, existing := key, apiKeyCache[key.id];
      if k.secret == "" {
        k := k.(secret := existing.secret);
      }
      table := table[k.id := k];
      if k.secret != existing.secret {
        apiKeyIDMap := apiKeyIDMap - {existing.secret};
        apiKeyIDMap := apiKeyIDMap[k.secret := k.id];
      }
      apiKeyCache := apiKeyCache[k.id := k];
      ok := true;
    }

    method APIKeyDelete(id: int) returns (ok: bool)
      modifies this
      ensures Now() == Deleted(old(Now()), id) && ok == (id in old(table)) && Removes(old(Now()), Now(), id)
    {
      var k := Key(id, "", [], "");
      if id !in table {
        return false;
      }
      table := table - {id};
      apiKeyCache := apiKeyCache - {k.id};
      apiKeyIDMap := apiKeyIDMap - {k.secret};
      ok := true;
    }

    /** In a right state: the live key with that string, or nothing when there is none. */
    method APIKeyGetByAPIKey(secret: string) returns (found: Option<Key>)
      ensures found == Lookup(Now(), secret)
      ensures Sound(Now()) && Right(Now()) ==>
        (forall id :: (found.Some? && found.value.id == id) <==> Holds(Now(), id, secret))
    {
      if secret !in apiKeyIDMap {
        return None;
      }
      var id := apiKeyIDMap[secret];
      found := if id in apiKeyCache then Some(apiKeyCache[id]) else None;
      assert forall other :: Finds(Now(), secret, other) <==> (found.Some? && found.value.id == other);
    }

    /** Fills empty caches from the table. */
    method APIKeyRefreshCache(rows: seq<int>)
      requires forall id :: id in rows <==> id in table
      requires apiKeyCache == map[] && apiKeyIDMap == map[]
      modifies `apiKeyCache, `apiKeyIDMap
      ensures apiKeyCache == table && apiKeyIDMap == Indexed(table, rows)
    {
      for k := 0 to |rows|
        invariant table == old(table)
        invariant forall id :: id in apiKeyCache <==> id in rows[..k]
        invariant forall id :: id in apiKeyCache ==> apiKeyCache[id] == table[id]
        invariant apiKeyIDMap == Indexed(table, rows[..k])
      {
        var id := rows[k];
        assert rows[..k + 1] == rows[..k] + [id];
        assert rows[..k + 1][..k] == rows[..k];
        apiKeyCache := apiKeyCache[id := table[id]];
        apiKeyIDMap := apiKeyIDMap[table[id].secret := id];
      }
      assert rows[..|rows|] == rows;
      SameRows(apiKeyCache, table);
    }
  }
}
