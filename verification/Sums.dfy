/** Sums over finite sets and over logged rows, and the one fact behind every conservation result:
    grouping rows by a key splits any sum over them into the sums of the groups. */
module Sums {

  ghost function SumOver<K(!new)>(ks: set<K>, g: K -> real): real {
    if ks == {} then 0.0 else var k :| k in ks; g(k) + SumOver(ks - {k}, g)
  }

  lemma {:induction false} SumOverRemove<K(!new)>(ks: set<K>, k: K, g: K -> real)
    requires k in ks
    ensures SumOver(ks, g) == g(k) + SumOver(ks - {k}, g)
  {
    var j :| j in ks && SumOver(ks, g) == g(j) + SumOver(ks - {j}, g);
    if j != k {
      SumOverRemove(ks - {j}, k, g);
      SumOverRemove(ks - {k}, j, g);
      assert ks - {j} - {k} == ks - {k} - {j};
    }
  }

  lemma {:induction false} SumOverEqual<K(!new)>(ks: set<K>, g: K -> real, h: K -> real)
    requires forall k :: k in ks ==> g(k) == h(k)
    ensures SumOver(ks, g) == SumOver(ks, h)
  {
    if k :| k in ks {
      SumOverRemove(ks, k, g);
      SumOverRemove(ks, k, h);
      SumOverEqual(ks - {k}, g, h);
    }
  }

  lemma {:induction false} SumOverZero<K(!new)>(ks: set<K>, g: K -> real)
    requires forall k :: k in ks ==> g(k) == 0.0
    ensures SumOver(ks, g) == 0.0
  {
    if k :| k in ks {
      SumOverRemove(ks, k, g);
      SumOverZero(ks - {k}, g);
    }
  }

  lemma {:induction false} SumOverPlus<K(!new)>(ks: set<K>, g: K -> real, h: K -> real, sum: K -> real)
    requires forall k :: k in ks ==> sum(k) == g(k) + h(k)
    ensures SumOver(ks, sum) == SumOver(ks, g) + SumOver(ks, h)
  {
    if k :| k in ks {
      SumOverRemove(ks, k, g);
      SumOverRemove(ks, k, h);
      SumOverRemove(ks, k, sum);
      SumOverPlus(ks - {k}, g, h, sum);
    }
  }

  lemma {:induction false} SumOverUnion<K(!new)>(a: set<K>, b: set<K>, g: K -> real)
    requires a !! b
    ensures SumOver(a + b, g) == SumOver(a, g) + SumOver(b, g)
  {
    if k :| k in a {
      SumOverRemove(a, k, g);
      SumOverRemove(a + b, k, g);
      assert a + b - {k} == (a - {k}) + b;
      SumOverUnion(a - {k}, b, g);
    } else {
      assert a == {} && a + b == b;
    }
  }

  // ---------- Sums over rows ----------

  /** What the rows that satisfy `p` add up to. */
  function RowSum<R>(rows: seq<R>, p: R -> bool, f: R -> real): real {
    if rows == [] then 0.0
    else RowSum(rows[..|rows| - 1], p, f) + if p(rows[|rows| - 1]) then f(rows[|rows| - 1]) else 0.0
  }

  function All<R>(): R -> bool { _ => true }
  function One<R>(): R -> real { _ => 1.0 }
  function KeyIs<R, K(==)>(key: R -> K, k: K): R -> bool { r => key(r) == k }
  function And<R>(p: R -> bool, q: R -> bool): R -> bool { r => p(r) && q(r) }

  lemma RowSumSnoc<R(!new)>(rows: seq<R>, r: R)
    ensures forall p: R -> bool, f: R -> real ::
      RowSum(rows + [r], p, f) == RowSum(rows, p, f) + if p(r) then f(r) else 0.0
  {
    assert (rows + [r])[..|rows|] == rows;
  }

  lemma {:induction false} RowSumEqual<R>(rows: seq<R>, p: R -> bool, q: R -> bool, f: R -> real)
    requires forall r :: r in rows ==> p(r) == q(r)
    ensures RowSum(rows, p, f) == RowSum(rows, q, f)
  {
    if rows != [] { RowSumEqual(rows[..|rows| - 1], p, q, f); }
  }

  /** Only what is added for each row matters. */
  lemma {:induction false} RowSumSame<R>(rows: seq<R>, p: R -> bool, f: R -> real, q: R -> bool, g: R -> real)
    requires forall r :: r in rows ==> p(r) == q(r) && (p(r) ==> f(r) == g(r))
    ensures RowSum(rows, p, f) == RowSum(rows, q, g)
  {
    if rows != [] { RowSumSame(rows[..|rows| - 1], p, f, q, g); }
  }

  /** A disjoint choice of rows adds up. */
  lemma {:induction false} RowSumSplit<R>(rows: seq<R>, p: R -> bool, q: R -> bool, both: R -> bool, f: R -> real)
    requires forall r :: r in rows ==> !(p(r) && q(r)) && (both(r) <==> p(r) || q(r))
    ensures RowSum(rows, both, f) == RowSum(rows, p, f) + RowSum(rows, q, f)
  {
    if rows != [] { RowSumSplit(rows[..|rows| - 1], p, q, both, f); }
  }

  lemma {:induction false} RowSumCount<R>(rows: seq<R>)
    ensures RowSum(rows, All(), One()) == |rows| as real
  {
    if rows != [] { RowSumCount(rows[..|rows| - 1]); }
  }

  /** The groups of a key partition the rows: every row is counted in exactly one of them. */
  lemma {:induction false} GroupsPartition<R(!new), K(!new)>(rows: seq<R>, p: R -> bool, key: R -> K, ks: set<K>,
      f: R -> real)
    requires forall r :: r in rows && p(r) ==> key(r) in ks
    ensures SumOver(ks, k => RowSum(rows, And(p, KeyIs(key, k)), f)) == RowSum(rows, p, f)
  {
    if rows == [] {
      SumOverZero(ks, k => RowSum(rows, And(p, KeyIs(key, k)), f));
    } else {
      var init, r := rows[..|rows| - 1], rows[|rows| - 1];
      GroupsPartition(init, p, key, ks, f);
      var before := k => RowSum(init, And(p, KeyIs(key, k)), f);
      var step := k => if p(r) && key(r) == k then f(r) else 0.0;
      SumOverPlus(ks, before, step, k => RowSum(rows, And(p, KeyIs(key, k)), f));
      if p(r) {
        SumOverRemove(ks, key(r), step);
        SumOverZero(ks - {key(r)}, step);
      } else {
        SumOverZero(ks, step);
      }
    }
  }
}
