/** Replacing the rows a parent owns by a submitted list: rows are matched by their unique reference,
    so what stays keeps its id. Group items, channel keys, models and grants are all written this way. */
module Reconcile {
  import opened Common

  /** `ref` is what a row is unique by, parent included; `value` is the rest of its columns. */
  datatype Row<K, V> = Row(ref: K, value: V)

  ghost predicate Unique<K, V>(rows: map<int, Row<K, V>>) {
    forall i, j :: i in rows && j in rows && rows[i].ref == rows[j].ref ==> i == j
  }

  ghost predicate Below<K, V>(rows: map<int, Row<K, V>>, next: int) { forall id :: id in rows ==> 0 < id < next }

  predicate HasRef<K(==), V>(rows: map<int, Row<K, V>>, ref: K) { exists id :: id in rows && rows[id].ref == ref }

  /** The value submitted for a reference. */
  function Asked<K(==), V>(requested: seq<Row<K, V>>, ref: K): Option<V> {
    if requested == [] then None
    else
      var last := requested[|requested| - 1];
      if last.ref == ref then Some(last.value) else Asked(requested[..|requested| - 1], ref)
  }

  ghost predicate DistinctRefs<K, V>(requested: seq<Row<K, V>>) {
    forall i, j :: 0 <= i < j < |requested| ==> requested[i].ref != requested[j].ref
  }

  lemma AskedSnoc<K, V>(done: seq<Row<K, V>>, row: Row<K, V>, ref: K)
    ensures Asked(done + [row], ref) == if row.ref == ref then Some(row.value) else Asked(done, ref)
  {
    assert (done + [row])[..|done|] == done;
  }

  lemma {:induction false} AskedFacts<K, V>(requested: seq<Row<K, V>>)
    ensures forall ref :: Asked(requested, ref).Some? <==> exists i :: 0 <= i < |requested| && requested[i].ref == ref
    ensures DistinctRefs(requested) ==>
      forall i :: 0 <= i < |requested| ==> Asked(requested, requested[i].ref) == Some(requested[i].value)
  {
    if requested != [] {
      var init := requested[..|requested| - 1];
      AskedFacts(init);
      assert requested == init + [requested[|requested| - 1]];
    }
  }

  /** What becomes of one row that was there before. */
  predicate SurvivesAs<K(==), V(==)>(before: Row<K, V>, after: Row<K, V>, mine: K -> bool, requested: seq<Row<K, V>>,
      merge: (V, V) -> V) {
    && after.ref == before.ref
    && after.value ==
         if mine(before.ref) && Asked(requested, before.ref).Some?
         then merge(before.value, Asked(requested, before.ref).value) else before.value
  }

  /** One id before and after: a row stays exactly when it is someone else's or asked for, and a new
      row is one of the submitted, under a new id. */
  predicate IdFits<K(==), V(==)>(rows: map<int, Row<K, V>>, after: map<int, Row<K, V>>, mine: K -> bool,
      requested: seq<Row<K, V>>, merge: (V, V) -> V, next: int, next': int, id: int) {
    && (id in rows ==> (id in after <==> !mine(rows[id].ref) || Asked(requested, rows[id].ref).Some?))
    && (id in rows && id in after ==> SurvivesAs(rows[id], after[id], mine, requested, merge))
    && (id !in rows && id in after ==>
          next <= id < next' && Asked(requested, after[id].ref) == Some(after[id].value)
          && !HasRef(rows, after[id].ref))
  }

  /** The rows after a list was submitted: what was asked for and nothing else, each reference once. */
  ghost predicate Reconciled<K, V>(rows: map<int, Row<K, V>>, after: map<int, Row<K, V>>, mine: K -> bool,
      requested: seq<Row<K, V>>, merge: (V, V) -> V, next: int, next': int) {
    && Unique(after) && Below(after, next') && next <= next'
    && (forall i :: 0 <= i < |requested| ==> HasRef(after, requested[i].ref))
    && (forall id :: IdFits(rows, after, mine, requested, merge, next, next', id))
  }

  // ---------- One submitted row after the other ----------

  /** Like `IdFits` before anything is deleted. */
  predicate IdStaged<K(==), V(==)>(rows: map<int, Row<K, V>>, work: map<int, Row<K, V>>, mine: K -> bool,
      done: seq<Row<K, V>>, merge: (V, V) -> V, next: int, n: int, id: int) {
    && (id in rows ==> id in work && SurvivesAs(rows[id], work[id], mine, done, merge))
    && (id !in rows && id in work ==>
          next <= id < n && Asked(done, work[id].ref) == Some(work[id].value) && !HasRef(rows, work[id].ref))
  }

  ghost predicate Staged<K, V>(rows: map<int, Row<K, V>>, work: map<int, Row<K, V>>, mine: K -> bool,
      done: seq<Row<K, V>>, merge: (V, V) -> V, next: int, n: int) {
    && Unique(work) && Below(work, n) && next <= n
    && (forall i :: 0 <= i < |done| ==> HasRef(work, done[i].ref))
    && (forall id :: IdStaged(rows, work, mine, done, merge, next, n, id))
  }

  /** The rows still to be matched: mine, and not asked for so far. */
  ghost predicate Remaining<K, V>(existing: map<K, int>, rows: map<int, Row<K, V>>, mine: K -> bool,
      done: seq<Row<K, V>>) {
    && (forall ref :: ref in existing ==>
      existing[ref] in rows && rows[existing[ref]].ref == ref && mine(ref) && Asked(done, ref).None?)
    && (forall id :: id in rows && mine(rows[id].ref) && Asked(done, rows[id].ref).None? ==> rows[id].ref in existing)
  }

  lemma StillThere<K, V>(work: map<int, Row<K, V>>, out: map<int, Row<K, V>>, done: seq<Row<K, V>>, row: Row<K, V>,
      id: int)
    requires forall i :: 0 <= i < |done| ==> HasRef(work, done[i].ref)
    requires id in out && out == work[id := out[id]] && out[id].ref == row.ref
    requires id in work ==> work[id].ref == row.ref
    ensures forall i :: 0 <= i < |done + [row]| ==> HasRef(out, (done + [row])[i].ref)
  {
    var all := done + [row];
    forall i | 0 <= i < |all| ensures HasRef(out, all[i].ref) {
      if i < |done| {
        assert HasRef(work, done[i].ref);
        var other :| other in work && work[other].ref == done[i].ref;
        assert other in out && out[other].ref == done[i].ref;
      }
    }
  }

  lemma StageSurvivor<K, V>(rows: map<int, Row<K, V>>, work: map<int, Row<K, V>>, mine: K -> bool, done: seq<Row<K, V>>,
      row: Row<K, V>, merge: (V, V) -> V, next: int, n: int, id: int)
    requires Unique(rows) && Staged(rows, work, mine, done, merge, next, n)
    requires id in rows && rows[id].ref == row.ref && mine(row.ref) && Asked(done, row.ref).None?
    ensures id in work
    ensures Staged(rows, work[id := Row(row.ref, merge(rows[id].value, row.value))], mine, done + [row], merge, next, n)
  {
    assert IdStaged(rows, work, mine, done, merge, next, n, id);
    var out, all := work[id := Row(row.ref, merge(rows[id].value, row.value))], done + [row];
    StillThere(work, out, done, row, id);
    assert Unique(out);
    forall other ensures IdStaged(rows, out, mine, all, merge, next, n, other) {
      SurvivorAt(rows, work, mine, done, row, merge, next, n, id, other);
    }
  }

  lemma SurvivorAt<K, V>(rows: map<int, Row<K, V>>, work: map<int, Row<K, V>>, mine: K -> bool, done: seq<Row<K, V>>,
      row: Row<K, V>, merge: (V, V) -> V, next: int, n: int, id: int, other: int)
    requires Unique(rows) && IdStaged(rows, work, mine, done, merge, next, n, other)
    requires id in rows && rows[id].ref == row.ref && mine(row.ref) && Asked(done, row.ref).None?
    ensures IdStaged(rows, work[id := Row(row.ref, merge(rows[id].value, row.value))], mine, done + [row], merge, next,
      n, other)
  {
    if other in work {
      AskedSnoc(done, row, work[other].ref);
    }
    AskedSnoc(done, row, row.ref);
    assert other in rows && other != id ==> rows[other].ref != row.ref;
  }

  lemma StageNew<K, V>(rows: map<int, Row<K, V>>, work: map<int, Row<K, V>>, mine: K -> bool, done: seq<Row<K, V>>,
      row: Row<K, V>, merge: (V, V) -> V, next: int, n: int)
    requires Below(rows, next) && Staged(rows, work, mine, done, merge, next, n)
    requires 0 < next && !HasRef(work, row.ref)
    ensures Staged(rows, work[n := row], mine, done + [row], merge, next, n + 1)
  {
    var out, all, n' := work[n := row], done + [row], n + 1;
    StillThere(work, out, done, row, n);
    forall id | id in rows ensures rows[id].ref != row.ref {
      assert IdStaged(rows, work, mine, done, merge, next, n, id);
      assert id in work && work[id].ref == rows[id].ref;
    }
    forall id ensures IdStaged(rows, out, mine, all, merge, next, n', id) {
      assert IdStaged(rows, work, mine, done, merge, next, n, id);
      if id in out {
        AskedSnoc(done, row, out[id].ref);
      }
    }
  }

  /** A reference of mine with nothing left to match is taken exactly when it was asked for before. */
  lemma TakenMeansTwice<K, V>(rows: map<int, Row<K, V>>, work: map<int, Row<K, V>>, mine: K -> bool,
      done: seq<Row<K, V>>, merge: (V, V) -> V, next: int, n: int, existing: map<K, int>, ref: K)
    requires Staged(rows, work, mine, done, merge, next, n) && Remaining(existing, rows, mine, done)
    requires mine(ref) && ref !in existing
    ensures HasRef(work, ref) <==> Asked(done, ref).Some?
  {
    AskedFacts(done);
    if HasRef(work, ref) {
      var id :| id in work && work[id].ref == ref;
      assert IdStaged(rows, work, mine, done, merge, next, n, id);
    }
  }

  lemma DistinctSnoc<K, V>(done: seq<Row<K, V>>, row: Row<K, V>)
    requires DistinctRefs(done)
    ensures DistinctRefs(done + [row]) <==> Asked(done, row.ref).None?
  {
    AskedFacts(done);
    var all := done + [row];
    if Asked(done, row.ref).Some? {
      var i :| 0 <= i < |done| && done[i].ref == row.ref;
      assert all[i].ref == all[|done|].ref;
    }
  }

  lemma Matched<K, V>(existing: map<K, int>, rows: map<int, Row<K, V>>, mine: K -> bool, done: seq<Row<K, V>>,
      row: Row<K, V>)
    requires Remaining(existing, rows, mine, done)
    ensures Remaining(existing - {row.ref}, rows, mine, done + [row])
  {
    forall ref ensures Asked(done + [row], ref) == if row.ref == ref then Some(row.value) else Asked(done, ref) {
      AskedSnoc(done, row, ref);
    }
  }

  lemma LeftOver<K, V>(existing: map<K, int>, rows: map<int, Row<K, V>>, mine: K -> bool, done: seq<Row<K, V>>)
    requires Unique(rows) && Remaining(existing, rows, mine, done)
    ensures forall id :: id in existing.Values <==> id in rows && mine(rows[id].ref) && Asked(done, rows[id].ref).None?
  {
    forall id | id in rows && mine(rows[id].ref) && Asked(done, rows[id].ref).None? ensures id in existing.Values {
      assert existing[rows[id].ref] == id;
    }
  }

  lemma StagedThenDeleted<K, V>(rows: map<int, Row<K, V>>, work: map<int, Row<K, V>>, mine: K -> bool,
      requested: seq<Row<K, V>>, merge: (V, V) -> V, next: int, n: int, gone: set<int>)
    requires Staged(rows, work, mine, requested, merge, next, n)
    requires forall id :: id in gone <==> id in rows && mine(rows[id].ref) && Asked(requested, rows[id].ref).None?
    ensures Reconciled(rows, work - gone, mine, requested, merge, next, n)
  {
    var after := work - gone;
    AskedFacts(requested);
    forall i | 0 <= i < |requested| ensures HasRef(after, requested[i].ref) {
      var ref := requested[i].ref;
      assert Asked(requested, ref).Some?;
      assert HasRef(work, requested[i].ref);
      var id :| id in work && work[id].ref == requested[i].ref;
      assert IdStaged(rows, work, mine, requested, merge, next, n, id);
      assert id in after && after[id].ref == requested[i].ref;
    }
    forall id ensures IdFits(rows, after, mine, requested, merge, next, n, id) {
      assert IdStaged(rows, work, mine, requested, merge, next, n, id);
    }
  }

  lemma TwiceIsTwice<K, V>(requested: seq<Row<K, V>>, k: nat)
    requires k <= |requested| && !DistinctRefs(requested[..k])
    ensures !DistinctRefs(requested)
  {
    var i, j :| 0 <= i < j < k && requested[..k][i].ref == requested[..k][j].ref;
    assert requested[i].ref == requested[j].ref;
  }

  /** Matches every submitted row, then deletes what was not asked for. A second row with the same
      reference runs into the unique index, and the whole submission is refused. */
  method Sync<K(==), V(==)>(rows: map<int, Row<K, V>>, mine: K -> bool, requested: seq<Row<K, V>>, merge: (V, V) -> V,
      next: int) returns (ok: bool, after: map<int, Row<K, V>>, next': int)
    requires Unique(rows) && Below(rows, next) && 0 < next
    requires forall i :: 0 <= i < |requested| ==> mine(requested[i].ref)
    ensures ok <==> DistinctRefs(requested)
    ensures ok ==> Reconciled(rows, after, mine, requested, merge, next, next')
  {
    var existing := map id | id in rows && mine(rows[id].ref) :: rows[id].ref := id;
    after, next' := rows, next;
    for k := 0 to |requested|
      invariant DistinctRefs(requested[..k])
      invariant Staged(rows, after, mine, requested[..k], merge, next, next')
      invariant Remaining(existing, rows, mine, requested[..k])
    {
      var row := requested[k];
      ghost var done := requested[..k];
      assert requested[..k + 1] == done + [row];
      DistinctSnoc(done, row);
      Matched(existing, rows, mine, done, row);
      if row.ref in existing {
        var current := existing[row.ref];
        StageSurvivor(rows, after, mine, done, row, merge, next, next', current);
        after := after[current := Row(row.ref, merge(rows[current].value, row.value))];
        existing := existing - {row.ref};
        continue;
      }
      assert existing - {row.ref} == existing;
      TakenMeansTwice(rows, after, mine, done, merge, next, next', existing, row.ref);
      if HasRef(after, row.ref) {
        TwiceIsTwice(requested, k + 1);
        return false, rows, next;
      }
      StageNew(rows, after, mine, done, row, merge, next, next');
      after := after[next' := row];
      next' := next' + 1;
    }
    assert requested[..|requested|] == requested;
    LeftOver(existing, rows, mine, requested);
    StagedThenDeleted(rows, after, mine, requested, merge, next, next', existing.Values);
    after := after - existing.Values;
    ok := true;
  }
}
