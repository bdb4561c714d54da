/** The time line of the call analytics: hourly buckets, rolled up to days when they span a day, and
    trimmed to the models that are used most. */
module AnalyticsSeries {
  import opened Common
  import opened Sums
  import opened Analytics

  datatype Bucket = Bucket(requests: int, success: int, tokens: int, cost: real, byModel: map<string, int>,
      byModelCost: map<string, real>)

  const EMPTY_BUCKET := Bucket(0, 0, 0, 0.0, map[], map[])

  function Hour(): Row -> int { (r: Row) => r.at - r.at % 3600 }

  ghost predicate Occurs<K(!new)>(rows: seq<Row>, p: Row -> bool, key: Row -> K, k: K) {
    exists r :: r in rows && p(r) && key(r) == k
  }

  function IntAt(m: map<string, int>, k: string): int { if k in m then m[k] else 0 }
  function RealAt(m: map<string, real>, k: string): real { if k in m then m[k] else 0.0 }

  /** The totals of the bucket say what the rows that satisfy `p` add up to. */
  ghost predicate TotalsOf(b: Bucket, rows: seq<Row>, p: Row -> bool) {
    && b.requests as real == RowSum(rows, p, One())
    && b.success as real == RowSum(rows, And(p, KeyIs(FaultOf(), Success)), One())
    && b.tokens as real == RowSum(rows, p, Tokens())
    && b.cost == RowSum(rows, p, Cost())
  }

  /** Model `k` has an entry in both breakdowns exactly when one of those rows is its, and the entries
      say what its rows add up to. */
  ghost predicate EntryOf(b: Bucket, rows: seq<Row>, p: Row -> bool, k: string) {
    && (k in b.byModel <==> Occurs(rows, p, ModelName(), k)) && (k in b.byModelCost <==> k in b.byModel)
    && IntAt(b.byModel, k) as real == RowSum(rows, And(p, KeyIs(ModelName(), k)), Tokens())
    && RealAt(b.byModelCost, k) == RowSum(rows, And(p, KeyIs(ModelName(), k)), Cost())
  }

  ghost predicate BucketOf(b: Bucket, rows: seq<Row>, p: Row -> bool) {
    TotalsOf(b, rows, p) && forall k :: EntryOf(b, rows, p, k)
  }

  /** Key `k` has a bucket exactly when it occurs among the rows that satisfy `p`, and it is the bucket of its rows. */
  ghost predicate FiledUnder(bs: map<int, Bucket>, rows: seq<Row>, p: Row -> bool, key: Row -> int, k: int) {
    && (k in bs <==> Occurs(rows, p, key, k))
    && (k in bs ==> BucketOf(bs[k], rows, And(p, KeyIs(key, k))))
  }

  ghost predicate BucketsBy(bs: map<int, Bucket>, rows: seq<Row>, p: Row -> bool, key: Row -> int) {
    forall k :: FiledUnder(bs, rows, p, key, k)
  }

  lemma NoneOccurs<K(!new)>(rows: seq<Row>, p: Row -> bool, key: Row -> K, k: K)
    requires !Occurs(rows, p, key, k)
    ensures forall r :: r in rows ==> !And(p, KeyIs(key, k))(r)
  {
  }

  lemma EmptyBucketOf(rows: seq<Row>, p: Row -> bool)
    requires forall r :: r in rows ==> !p(r)
    ensures BucketOf(EMPTY_BUCKET, rows, p)
  {
    NoRowsNoSum(rows, p);
    NoRowsNoSum(rows, And(p, KeyIs(FaultOf(), Success)));
    forall k ensures EntryOf(EMPTY_BUCKET, rows, p, k) {
      NoRowsNoSum(rows, And(p, KeyIs(ModelName(), k)));
    }
  }

  /** Only which rows are chosen matters, not how the choice is written. */
  lemma BucketOfEqual(b: Bucket, rows: seq<Row>, p: Row -> bool, q: Row -> bool)
    requires BucketOf(b, rows, p) && forall r :: r in rows ==> p(r) == q(r)
    ensures BucketOf(b, rows, q)
  {
    RowSumEqual(rows, p, q, One());
    RowSumEqual(rows, p, q, Tokens());
    RowSumEqual(rows, p, q, Cost());
    RowSumEqual(rows, And(p, KeyIs(FaultOf(), Success)), And(q, KeyIs(FaultOf(), Success)), One());
    forall k ensures EntryOf(b, rows, q, k) {
      assert EntryOf(b, rows, p, k);
      RowSumEqual(rows, And(p, KeyIs(ModelName(), k)), And(q, KeyIs(ModelName(), k)), Tokens());
      RowSumEqual(rows, And(p, KeyIs(ModelName(), k)), And(q, KeyIs(ModelName(), k)), Cost());
      OccursEither(rows, p, p, q, ModelName(), k);
    }
  }

  // ---------- Filling the buckets ----------

  /** A bucket with one more row in it. */
  function Plus(b: Bucket, row: Row): Bucket {
    var m, tokens := ModelName()(row), row.prompt + row.completion;
    Bucket(b.requests + 1, b.success + (if row.status == "success" then 1 else 0), b.tokens + tokens, b.cost + row.cost,
           b.byModel[m := IntAt(b.byModel, m) + tokens], b.byModelCost[m := RealAt(b.byModelCost, m) + row.cost])
  }

  lemma TotalsSnoc(b: Bucket, rows: seq<Row>, p: Row -> bool, row: Row)
    requires TotalsOf(b, rows, p) && p(row)
    ensures TotalsOf(Plus(b, row), rows + [row], p)
  {
    RowSumSnoc(rows, row);
  }

  lemma EntrySnoc(b: Bucket, rows: seq<Row>, p: Row -> bool, row: Row, k: string)
    requires EntryOf(b, rows, p, k) && p(row)
    ensures EntryOf(Plus(b, row), rows + [row], p, k)
  {
    RowSumSnoc(rows, row);
    OccursSnoc(rows, row, p, ModelName(), k);
  }

  lemma BucketSnoc(b: Bucket, rows: seq<Row>, p: Row -> bool, row: Row)
    requires BucketOf(b, rows, p) && p(row)
    ensures BucketOf(Plus(b, row), rows + [row], p)
  {
    TotalsSnoc(b, rows, p, row);
    forall k ensures EntryOf(Plus(b, row), rows + [row], p, k) {
      assert EntryOf(b, rows, p, k);
      EntrySnoc(b, rows, p, row, k);
    }
  }

  lemma OccursSnoc<K(!new)>(rows: seq<Row>, row: Row, p: Row -> bool, key: Row -> K, k: K)
    ensures Occurs(rows + [row], p, key, k) <==> (p(row) && key(row) == k) || Occurs(rows, p, key, k)
  {
    assert forall r :: r in rows + [row] <==> r in rows || r == row;
    if Occurs(rows, p, key, k) {
      var r :| r in rows && p(r) && key(r) == k;
      assert r in rows + [row];
    }
    if p(row) && key(row) == k {
      assert row in rows + [row];
    }
  }

  /** A row that the bucket is not about leaves it right. */
  lemma BucketSkips(b: Bucket, rows: seq<Row>, p: Row -> bool, row: Row)
    requires BucketOf(b, rows, p) && !p(row)
    ensures BucketOf(b, rows + [row], p)
  {
    assert TotalsOf(b, rows + [row], p) by { RowSumSnoc(rows, row); }
    forall k ensures EntryOf(b, rows + [row], p, k) {
      assert EntryOf(b, rows, p, k);
      RowSumSnoc(rows, row);
      OccursSnoc(rows, row, p, ModelName(), k);
    }
  }

  lemma FileRow(bs: map<int, Bucket>, rows: seq<Row>, row: Row, b: Bucket)
    requires BucketsBy(bs, rows, All(), Hour())
    requires var key := Hour()(row); b == if key in bs then bs[key] else EMPTY_BUCKET
    ensures BucketsBy(bs[Hour()(row) := Plus(b, row)], rows + [row], All(), Hour())
  {
    var key := Hour()(row);
    var p := And(All(), KeyIs(Hour(), key));
    assert FiledUnder(bs, rows, All(), Hour(), key);
    if key !in bs {
      NoneOccurs(rows, All(), Hour(), key);
      EmptyBucketOf(rows, p);
    }
    BucketSnoc(b, rows, p, row);
    var out, all := bs[key := Plus(b, row)], rows + [row];
    forall k ensures FiledUnder(out, all, All(), Hour(), k) {
      assert FiledUnder(bs, rows, All(), Hour(), k);
      OccursSnoc(rows, row, All(), Hour(), k);
      if k in bs && k != key {
        BucketSkips(bs[k], rows, And(All(), KeyIs(Hour(), k)), row);
      }
    }
  }

  method AddRow(b: Bucket, row: Row) returns (out: Bucket)
    ensures out == Plus(b, row)
  {
    var model, tokens := DimensionKey(row.model, "(no model)"), row.prompt + row.completion;
    out := b.(requests := b.requests + 1);
    if row.status == "success" {
      out := out.(success := out.success + 1);
    }
    out := out.(tokens := out.tokens + tokens);
    out := out.(cost := out.cost + row.cost);
    out := out.(byModel := out.byModel[model := IntAt(out.byModel, model) + tokens]);
    out := out.(byModelCost := out.byModelCost[model := RealAt(out.byModelCost, model) + row.cost]);
  }

  /** Files one more row in the bucket of its hour. */
  method AddToBucket(bs: map<int, Bucket>, row: Row, ghost rows: seq<Row>) returns (out: map<int, Bucket>)
    requires BucketsBy(bs, rows, All(), Hour())
    ensures BucketsBy(out, rows + [row], All(), Hour())
  {
    var key := row.at - row.at % 3600;
    var b := EMPTY_BUCKET;
    if key in bs {
      b := bs[key];
    }
    FileRow(bs, rows, row, b);
    b := AddRow(b, row);
    out := bs[key := b];
  }

  // ---------- Rolling up ----------

  /** Adds the entries of one breakdown to another, name by name, in any order. */
  method AddTokens(target: map<string, int>, src: map<string, int>) returns (out: map<string, int>)
    ensures out.Keys == target.Keys + src.Keys
    ensures forall k :: k in out ==> out[k] == IntAt(target, k) + IntAt(src, k)
  {
    out := target;
    var rest := src.Keys;
    while rest != {}
      invariant rest <= src.Keys && out.Keys == target.Keys + (src.Keys - rest)
      invariant forall k :: k in out ==> out[k] == IntAt(target, k) + if k in rest then 0 else IntAt(src, k)
      decreases rest
    {
      var name :| name in rest;
      out := out[name := IntAt(out, name) + src[name]];
      rest := rest - {name};
    }
  }

  method AddCosts(target: map<string, real>, src: map<string, real>) returns (out: map<string, real>)
    ensures out.Keys == target.Keys + src.Keys
    ensures forall k :: k in out ==> out[k] == RealAt(target, k) + RealAt(src, k)
  {
    out := target;
    var rest := src.Keys;
    while rest != {}
      invariant rest <= src.Keys && out.Keys == target.Keys + (src.Keys - rest)
      invariant forall k :: k in out ==> out[k] == RealAt(target, k) + if k in rest then 0.0 else RealAt(src, k)
      decreases rest
    {
      var name :| name in rest;
      out := out[name := RealAt(out, name) + src[name]];
      rest := rest - {name};
    }
  }

  /** The sum of two buckets. */
  ghost predicate IsMerged(m: Bucket, t: Bucket, src: Bucket) {
    && m.requests == t.requests + src.requests && m.success == t.success + src.success
    && m.tokens == t.tokens + src.tokens && m.cost == t.cost + src.cost
    && m.byModel.Keys == t.byModel.Keys + src.byModel.Keys
    && m.byModelCost.Keys == t.byModelCost.Keys + src.byModelCost.Keys
    && (forall k :: k in m.byModel ==> m.byModel[k] == IntAt(t.byModel, k) + IntAt(src.byModel, k))
    && (forall k :: k in m.byModelCost ==> m.byModelCost[k] == RealAt(t.byModelCost, k) + RealAt(src.byModelCost, k))
  }

  method MergeBucket(t: Bucket, src: Bucket) returns (m: Bucket)
    ensures IsMerged(m, t, src)
  {
    m := t.(requests := t.requests + src.requests, success := t.success + src.success,
            tokens := t.tokens + src.tokens, cost := t.cost + src.cost);
    var byModel := AddTokens(t.byModel, src.byModel);
    var byModelCost := AddCosts(t.byModelCost, src.byModelCost);
    m := m.(byModel := byModel, byModelCost := byModelCost);
  }

  ghost predicate Disjoint(rows: seq<Row>, p: Row -> bool, q: Row -> bool, both: Row -> bool) {
    forall r :: r in rows ==> !(p(r) && q(r)) && (both(r) <==> p(r) || q(r))
  }

  lemma MergedTotals(m: Bucket, t: Bucket, src: Bucket, rows: seq<Row>, p: Row -> bool, q: Row -> bool,
      both: Row -> bool)
    requires IsMerged(m, t, src) && TotalsOf(t, rows, p) && TotalsOf(src, rows, q) && Disjoint(rows, p, q, both)
    ensures TotalsOf(m, rows, both)
  {
    RowSumSplit(rows, p, q, both, One());
    RowSumSplit(rows, p, q, both, Tokens());
    RowSumSplit(rows, p, q, both, Cost());
    var ok := KeyIs(FaultOf(), Success);
    RowSumSplit(rows, And(p, ok), And(q, ok), And(both, ok), One());
  }

  lemma MergedEntry(m: Bucket, t: Bucket, src: Bucket, rows: seq<Row>, p: Row -> bool, q: Row -> bool,
      both: Row -> bool, k: string)
    requires IsMerged(m, t, src) && EntryOf(t, rows, p, k) && EntryOf(src, rows, q, k) && Disjoint(rows, p, q, both)
    ensures EntryOf(m, rows, both, k)
  {
    var named := KeyIs(ModelName(), k);
    RowSumSplit(rows, And(p, named), And(q, named), And(both, named), Tokens());
    RowSumSplit(rows, And(p, named), And(q, named), And(both, named), Cost());
    OccursEither(rows, p, q, both, ModelName(), k);
  }

  /** The sum of the buckets of two disjoint choices of rows is the bucket of both. */
  lemma MergedBucketOf(m: Bucket, t: Bucket, src: Bucket, rows: seq<Row>, p: Row -> bool, q: Row -> bool,
      both: Row -> bool)
    requires IsMerged(m, t, src) && BucketOf(t, rows, p) && BucketOf(src, rows, q) && Disjoint(rows, p, q, both)
    ensures BucketOf(m, rows, both)
  {
    MergedTotals(m, t, src, rows, p, q, both);
    forall k ensures EntryOf(m, rows, both, k) {
      assert EntryOf(t, rows, p, k) && EntryOf(src, rows, q, k);
      MergedEntry(m, t, src, rows, p, q, both, k);
    }
  }

  lemma OccursEither<K(!new)>(rows: seq<Row>, p: Row -> bool, q: Row -> bool, both: Row -> bool, key: Row -> K, k: K)
    requires forall r :: r in rows ==> (both(r) <==> p(r) || q(r))
    ensures Occurs(rows, both, key, k) <==> Occurs(rows, p, key, k) || Occurs(rows, q, key, k)
  {
    if Occurs(rows, both, key, k) { var r :| r in rows && both(r) && key(r) == k; assert p(r) || q(r); }
    if Occurs(rows, p, key, k) { var r :| r in rows && p(r) && key(r) == k; assert both(r); }
    if Occurs(rows, q, key, k) { var r :| r in rows && q(r) && key(r) == k; assert both(r); }
  }

  /** The rows of the first `i` hours of a list. */
  function InHours(keys: seq<int>, i: nat): Row -> bool
    requires i <= |keys|
  {
    (r: Row) => Hour()(r) in keys[..i]
  }

  function DayOf(day: int -> int): Row -> int { (r: Row) => day(Hour()(r)) }

  /** Choosing more rows, but none of key `k`, leaves what is filed under `k` right. */
  lemma OtherStays(bs: map<int, Bucket>, rows: seq<Row>, p: Row -> bool, q: Row -> bool, both: Row -> bool,
      key: Row -> int, k: int)
    requires FiledUnder(bs, rows, p, key, k)
    requires forall r :: r in rows ==> (both(r) <==> p(r) || q(r)) && (q(r) ==> key(r) != k)
    ensures FiledUnder(bs, rows, both, key, k)
  {
    OccursEither(rows, p, q, both, key, k);
    if k in bs {
      BucketOfEqual(bs[k], rows, And(p, KeyIs(key, k)), And(both, KeyIs(key, k)));
    }
  }

  /** What is filed under the day of an hour, once the hour is added. */
  lemma DayGrows(rolled: map<int, Bucket>, src: Bucket, m: Bucket, rows: seq<Row>, p: Row -> bool, h: int,
      both: Row -> bool, key: Row -> int, d: int)
    requires FiledUnder(rolled, rows, p, key, d) && BucketOf(src, rows, And(All(), KeyIs(Hour(), h)))
    requires Occurs(rows, All(), Hour(), h)
    requires IsMerged(m, if d in rolled then rolled[d] else EMPTY_BUCKET, src)
    requires forall r :: r in rows ==>
      (both(r) <==> p(r) || Hour()(r) == h) && (p(r) ==> Hour()(r) != h) && (Hour()(r) == h ==> key(r) == d)
    ensures FiledUnder(rolled[d := m], rows, both, key, d)
  {
    var was, q, now := And(p, KeyIs(key, d)), And(All(), KeyIs(Hour(), h)), And(both, KeyIs(key, d));
    var t := if d in rolled then rolled[d] else EMPTY_BUCKET;
    if d !in rolled {
      NoneOccurs(rows, p, key, d);
      EmptyBucketOf(rows, was);
    }
    MergedBucketOf(m, t, src, rows, was, q, now);
    var r :| r in rows && Hour()(r) == h;
    assert both(r) && key(r) == d;
  }

  /** Adding the bucket of one more hour to its day keeps the days right. */
  lemma RollUpStep(rolled: map<int, Bucket>, raw: map<int, Bucket>, keys: seq<int>, i: nat, day: int -> int,
      rows: seq<Row>, m: Bucket)
    requires i < |keys| && NoRepeat(keys) && keys[i] in raw
    requires BucketsBy(raw, rows, All(), Hour())
    requires BucketsBy(rolled, rows, InHours(keys, i), DayOf(day))
    requires var d := day(keys[i]); IsMerged(m, if d in rolled then rolled[d] else EMPTY_BUCKET, raw[keys[i]])
    ensures BucketsBy(rolled[day(keys[i]) := m], rows, InHours(keys, i + 1), DayOf(day))
  {
    var h, d := keys[i], day(keys[i]);
    var before, after := InHours(keys, i), InHours(keys, i + 1);
    assert keys[..i + 1] == keys[..i] + [h];
    assert h !in keys[..i];
    var out := rolled[d := m];
    assert FiledUnder(raw, rows, All(), Hour(), h);
    forall k ensures FiledUnder(out, rows, after, DayOf(day), k) {
      assert FiledUnder(rolled, rows, before, DayOf(day), k);
      if k == d {
        DayGrows(rolled, raw[h], m, rows, before, h, after, DayOf(day), d);
      } else {
        OtherStays(rolled, rows, before, KeyIs(Hour(), h), after, DayOf(day), k);
      }
    }
  }

  /** Rolling the hours up gives the buckets that filing the rows by day would have given. */
  method RollUpAnalyticsBuckets(raw: map<int, Bucket>, rawKeys: seq<int>, day: int -> int, ghost rows: seq<Row>)
      returns (rolled: map<int, Bucket>)
    requires BucketsBy(raw, rows, All(), Hour())
    requires NoRepeat(rawKeys) && (forall k :: k in rawKeys <==> k in raw)
    ensures BucketsBy(rolled, rows, All(), DayOf(day))
  {
    rolled := map[];
    for i := 0 to |rawKeys|
      invariant BucketsBy(rolled, rows, InHours(rawKeys, i), DayOf(day))
    {
      var k := rawKeys[i];
      var src := raw[k];
      var dayKey := day(k);
      var target := EMPTY_BUCKET;
      if dayKey in rolled {
        target := rolled[dayKey];
      }
      var m := MergeBucket(target, src);
      RollUpStep(rolled, raw, rawKeys, i, day, rows, m);
      rolled := rolled[dayKey := m];
    }
    ghost var last := InHours(rawKeys, |rawKeys|);
    assert rawKeys[..|rawKeys|] == rawKeys;
    forall r | r in rows ensures last(r) {
      assert FiledUnder(raw, rows, All(), Hour(), Hour()(r));
      assert Occurs(rows, All(), Hour(), Hour()(r));
    }
    forall k ensures FiledUnder(rolled, rows, All(), DayOf(day), k) {
      assert FiledUnder(rolled, rows, last, DayOf(day), k);
      OccursEither(rows, last, last, All(), DayOf(day), k);
      if k in rolled {
        BucketOfEqual(rolled[k], rows, And(last, KeyIs(DayOf(day), k)), And(All(), KeyIs(DayOf(day), k)));
      }
    }
  }

  // ---------- Parts and totals ----------

  function TokensIn(m: map<string, int>): string -> real { k => IntAt(m, k) as real }
  function CostIn(m: map<string, real>): string -> real { k => RealAt(m, k) }

  /** The breakdowns by model add up to the totals of the bucket. */
  lemma PartsAddUp(b: Bucket, rows: seq<Row>, p: Row -> bool)
    requires BucketOf(b, rows, p)
    ensures SumOver(b.byModel.Keys, TokensIn(b.byModel)) == b.tokens as real
    ensures SumOver(b.byModelCost.Keys, CostIn(b.byModelCost)) == b.cost
  {
    forall r | r in rows && p(r) ensures ModelName()(r) in b.byModel.Keys {
      assert EntryOf(b, rows, p, ModelName()(r));
      assert Occurs(rows, p, ModelName(), ModelName()(r));
    }
    GroupsPartition(rows, p, ModelName(), b.byModel.Keys, Tokens());
    GroupsPartition(rows, p, ModelName(), b.byModel.Keys, Cost());
    var tokens := k => RowSum(rows, And(p, KeyIs(ModelName(), k)), Tokens());
    var costs := k => RowSum(rows, And(p, KeyIs(ModelName(), k)), Cost());
    forall k
      ensures TokensIn(b.byModel)(k) == tokens(k) && CostIn(b.byModelCost)(k) == costs(k)
      ensures k in b.byModelCost <==> k in b.byModel
    {
      assert EntryOf(b, rows, p, k);
    }
    assert b.byModelCost.Keys == b.byModel.Keys;
    SumOverEqual(b.byModel.Keys, TokensIn(b.byModel), tokens);
    SumOverEqual(b.byModel.Keys, CostIn(b.byModelCost), costs);
  }

  function RequestsOf(bs: map<int, Bucket>): int -> real { k => if k in bs then bs[k].requests as real else 0.0 }

  /** Every row is in exactly one bucket, hourly or daily. */
  lemma BucketsCountEveryRow(bs: map<int, Bucket>, rows: seq<Row>, key: Row -> int)
    requires BucketsBy(bs, rows, All(), key)
    ensures SumOver(bs.Keys, RequestsOf(bs)) == |rows| as real
  {
    forall r | r in rows ensures key(r) in bs.Keys {
      assert FiledUnder(bs, rows, All(), key, key(r));
      assert Occurs(rows, All(), key, key(r));
    }
    GroupsPartition(rows, All(), key, bs.Keys, One());
    RowSumCount(rows);
    var parts := k => RowSum(rows, And(All(), KeyIs(key, k)), One());
    forall k | k in bs ensures RequestsOf(bs)(k) == parts(k) {
      assert FiledUnder(bs, rows, All(), key, k);
    }
    SumOverEqual(bs.Keys, RequestsOf(bs), parts);
  }

  // ---------- Trimming ----------

  const OTHER: string := "__other__"
  const TOP_MODELS: nat := 8

  /** What the names outside `keep` add up to. */
  ghost function Tail(ks: set<string>, keep: set<string>, value: string -> real): real { SumOver(ks - keep, value) }

  /** The kept names keep their value; the rest is merged under one name if it comes to more than nothing. */
  ghost predicate IsTrimmed<V>(m: map<string, V>, keep: set<string>, merged: map<string, V>, size: V -> real,
      value: string -> real) {
    var tail := Tail(m.Keys, keep, value);
    && merged.Keys == m.Keys * keep + (if tail > 0.0 then {OTHER} else {})
    && (forall k :: k in m.Keys * keep && !(k == OTHER && tail > 0.0) ==> merged[k] == m[k])
    && (tail > 0.0 ==> size(merged[OTHER]) == tail)
  }

  method TrimTokens(byModel: map<string, int>, keep: set<string>) returns (merged: map<string, int>)
    ensures IsTrimmed(byModel, keep, merged, (v: int) => v as real, TokensIn(byModel))
  {
    merged := map[];
    var other := 0;
    var rest := byModel.Keys;
    ghost var value := TokensIn(byModel);
    SumOverZero({}, value);
    while rest != {}
      invariant rest <= byModel.Keys
      invariant merged == map k | k in byModel && k in keep && k !in rest :: byModel[k]
      invariant other as real == Tail(byModel.Keys - rest, keep, value)
      decreases rest
    {
      var name :| name in rest;
      ghost var done := byModel.Keys - rest;
      rest := rest - {name};
      assert byModel.Keys - rest == done + {name};
      if name in keep {
        assert done + {name} - keep == done - keep;
        merged := merged[name := byModel[name]];
      } else {
        assert done + {name} - keep - {name} == done - keep;
        SumOverRemove(done + {name} - keep, name, value);
        other := other + byModel[name];
      }
    }
    assert byModel.Keys - rest == byModel.Keys;
    if other > 0 {
      merged := merged[OTHER := other];
    }
  }

  method TrimCosts(byModel: map<string, real>, keep: set<string>) returns (merged: map<string, real>)
    ensures IsTrimmed(byModel, keep, merged, (v: real) => v, CostIn(byModel))
  {
    merged := map[];
    var other := 0.0;
    var rest := byModel.Keys;
    ghost var value := CostIn(byModel);
    SumOverZero({}, value);
    while rest != {}
      invariant rest <= byModel.Keys
      invariant merged == map k | k in byModel && k in keep && k !in rest :: byModel[k]
      invariant other == Tail(byModel.Keys - rest, keep, value)
      decreases rest
    {
      var name :| name in rest;
      ghost var done := byModel.Keys - rest;
      rest := rest - {name};
      assert byModel.Keys - rest == done + {name};
      if name in keep {
        assert done + {name} - keep == done - keep;
        merged := merged[name := byModel[name]];
      } else {
        assert done + {name} - keep - {name} == done - keep;
        SumOverRemove(done + {name} - keep, name, value);
        other := other + byModel[name];
      }
    }
    assert byModel.Keys - rest == byModel.Keys;
    if other > 0.0 {
      merged := merged[OTHER := other];
    }
  }

  /** Trimming keeps the total exactly when the merged rest is not negative and does not overwrite a
      kept model that is literally named like it. */
  lemma TrimKeepsTotalExactly<V>(m: map<string, V>, keep: set<string>, merged: map<string, V>, size: V -> real,
      value: string -> real, valueAfter: string -> real)
    requires IsTrimmed(m, keep, merged, size, value)
    requires forall k :: k in m ==> value(k) == size(m[k])
    requires forall k :: k in merged ==> valueAfter(k) == size(merged[k])
    ensures SumOver(merged.Keys, valueAfter) == SumOver(m.Keys, value)
      <==> Tail(m.Keys, keep, value) == 0.0
           || (Tail(m.Keys, keep, value) > 0.0 && (OTHER in m.Keys * keep ==> value(OTHER) == 0.0))
  {
    var tail := Tail(m.Keys, keep, value);
    var kept := m.Keys * keep;
    assert m.Keys == kept + (m.Keys - keep);
    SumOverUnion(kept, m.Keys - keep, value);
    if tail > 0.0 {
      SumOverRemove(merged.Keys, OTHER, valueAfter);
      assert merged.Keys - {OTHER} == kept - {OTHER};
      SumOverEqual(kept - {OTHER}, value, valueAfter);
      if OTHER in kept {
        SumOverRemove(kept, OTHER, value);
      } else {
        assert kept - {OTHER} == kept;
      }
    } else {
      assert merged.Keys == kept;
      SumOverEqual(kept, value, valueAfter);
    }
  }

  /** A kept model with the name of the rest: its own usage is overwritten. */
  lemma RestOverwrites(own: int, rest: int, merged: map<string, int>)
    requires rest > 0
    requires var m := map[OTHER := own, "b" := rest]; IsTrimmed(m, {OTHER}, merged, (v: int) => v as real, TokensIn(m))
    ensures merged == map[OTHER := rest]
  {
    var m := map[OTHER := own, "b" := rest];
    assert m.Keys - {OTHER} == {"b"} && m.Keys * {OTHER} == {OTHER};
    SumOverRemove({"b"}, "b", TokensIn(m));
    assert {"b"} - {"b"} == {};
    assert merged.Keys == {OTHER};
  }

  /** Trims every bucket to the models at the top of the usage list, both breakdowns alike. */
  method TrimAnalyticsSeries(series: seq<Bucket>, models: seq<string>) returns (out: seq<Bucket>, keep: set<string>)
    ensures keep == set i | 0 <= i < |models| && i < TOP_MODELS :: models[i]
    ensures |out| == |series|
    ensures forall i :: 0 <= i < |series| ==>
      && out[i] == series[i].(byModel := out[i].byModel, byModelCost := out[i].byModelCost)
      && IsTrimmed(series[i].byModel, keep, out[i].byModel, (v: int) => v as real, TokensIn(series[i].byModel))
      && IsTrimmed(series[i].byModelCost, keep, out[i].byModelCost, (v: real) => v, CostIn(series[i].byModelCost))
  {
    keep := {};
    var n := if |models| < TOP_MODELS then |models| else TOP_MODELS;
    for i := 0 to n
      invariant keep == set k | 0 <= k < i :: models[k]
    {
      keep := keep + {models[i]};
    }
    out := [];
    for i := 0 to |series|
      invariant |out| == i
      invariant forall k :: 0 <= k < i ==>
        && out[k] == series[k].(byModel := out[k].byModel, byModelCost := out[k].byModelCost)
        && IsTrimmed(series[k].byModel, keep, out[k].byModel, (v: int) => v as real, TokensIn(series[k].byModel))
        && IsTrimmed(series[k].byModelCost, keep, out[k].byModelCost, (v: real) => v, CostIn(series[k].byModelCost))
    {
      var tokens := TrimTokens(series[i].byModel, keep);
      var costs := TrimCosts(series[i].byModelCost, keep);
      out := out + [series[i].(byModel := tokens, byModelCost := costs)];
    }
  }
}
