/** The whole analytics page over a window of logged rows. */
module AnalyticsOverview {
  import opened Common
  import opened Sums
  import opened Text
  import opened Analytics
  import opened AnalyticsSeries
  import opened Sorting

  // ---------- Orders that do not depend on map iteration ----------

  function RequestsFor(store: map<string, Usage>, k: string): int { if k in store then store[k].requests else 0 }

  /** More requests first, then by name. */
  function Ranking(store: map<string, Usage>): (string, string) -> bool {
    (a: string, b: string) =>
      RequestsFor(store, a) > RequestsFor(store, b) || (RequestsFor(store, a) == RequestsFor(store, b) && AtMost(a, b))
  }

  lemma RankingIsTotal(store: map<string, Usage>)
    ensures TotalOrder(Ranking(store))
  {
    forall a, b ensures Ranking(store)(a, b) || Ranking(store)(b, a)
                ensures Ranking(store)(a, b) && Ranking(store)(b, a) ==> a == b {
      AtMostTotal(a, b);
    }
    forall a, b, c | Ranking(store)(a, b) && Ranking(store)(b, c) ensures Ranking(store)(a, c) {
      if AtMost(a, b) && AtMost(b, c) { AtMostTransitive(a, b, c); }
    }
  }

  /** The keys of a map, each once, in whatever order they come. */
  method KeysOf<K, V>(m: map<K, V>) returns (keys: seq<K>)
    ensures (forall k :: k in keys <==> k in m) && NoRepeat(keys)
  {
    keys := [];
    var rest := m.Keys;
    while rest != {}
      invariant rest <= m.Keys && (forall k :: k in keys <==> k in m.Keys - rest)
      invariant NoRepeat(keys)
      decreases rest
    {
      var k :| k in rest;
      assert k !in keys && forall x :: x in keys + [k] <==> x in keys || x == k;
      keys := keys + [k];
      rest := rest - {k};
    }
  }

  /** Sorting repeats no entry that did not repeat before. */
  lemma SortNoRepeat<K(!new)>(s: seq<K>, le: (K, K) -> bool)
    requires TotalOrder(le) && NoRepeat(s)
    ensures NoRepeat(Sort(s, le))
  {
    SortIsSorted(s, le);
    var t := Sort(s, le);
    forall i, j | 0 <= i < j < |t| ensures t[i] != t[j] {
      if t[i] == t[j] {
        TwiceInMultiset(t, i, j);
        OnceInMultiset(s, t[i]);
      }
    }
  }

  lemma TwiceInMultiset<K>(t: seq<K>, i: nat, j: nat)
    requires i < j < |t| && t[i] == t[j]
    ensures multiset(t)[t[i]] >= 2
  {
    assert t == t[..j] + [t[j]] + t[j + 1..];
    assert t[..j][i] in multiset(t[..j]);
  }

  lemma {:induction false} OnceInMultiset<K(!new)>(s: seq<K>, x: K)
    requires NoRepeat(s)
    ensures multiset(s)[x] <= 1
  {
    if s != [] {
      assert s == [s[0]] + s[1..];
      OnceInMultiset(s[1..], x);
      if s[0] == x {
        assert x !in s[1..];
        assert multiset(s[1..])[x] == 0;
      }
    }
  }

  /** The values of a dimension by rank. */
  method RankDimension(store: map<string, Usage>) returns (names: seq<string>)
    ensures (forall k :: k in names <==> k in store) && NoRepeat(names) && Sorted(names, Ranking(store))
  {
    var keys := KeysOf(store);
    RankingIsTotal(store);
    SortIsSorted(keys, Ranking(store));
    SortNoRepeat(keys, Ranking(store));
    names := Sort(keys, Ranking(store));
  }

  method SortedKeys(bs: map<int, Bucket>) returns (keys: seq<int>)
    ensures (forall k :: k in keys <==> k in bs) && (forall i, j :: 0 <= i < j < |keys| ==> keys[i] < keys[j])
  {
    var all := KeysOf(bs);
    SortIsSorted(all, Ascending());
    SortNoRepeat(all, Ascending());
    keys := Sort(all, Ascending());
    assert forall i, j :: 0 <= i <= j < |keys| ==> Ascending()(keys[i], keys[j]);
  }

  // ---------- The time line ----------

  const DAY_SPAN: int := 24 * 3600

  /** Two hours with requests lie a day or more apart. */
  ghost predicate SpansADay(raw: map<int, Bucket>) {
    exists h, k :: h in raw && k in raw && k - h >= DAY_SPAN
  }

  lemma WideExactly(keys: seq<int>, raw: map<int, Bucket>)
    requires (forall k :: k in keys <==> k in raw) && (forall i, j :: 0 <= i < j < |keys| ==> keys[i] < keys[j])
    ensures |keys| > 1 && keys[|keys| - 1] - keys[0] >= DAY_SPAN <==> SpansADay(raw)
  {
    if SpansADay(raw) {
      var h, k :| h in raw && k in raw && k - h >= DAY_SPAN;
      var i :| 0 <= i < |keys| && keys[i] == h;
      var j :| 0 <= j < |keys| && keys[j] == k;
    }
    if |keys| > 1 {
      assert keys[0] in keys && keys[|keys| - 1] in keys;
    }
  }

  /** What the time line is filed by. */
  function BucketKey(daily: bool, day: int -> int): Row -> int { if daily then DayOf(day) else Hour() }

  /** Hours, or days as soon as the hours span one; in ascending order. */
  method FinishSeries(raw: map<int, Bucket>, day: int -> int, ghost rows: seq<Row>)
    returns (keys: seq<int>, series: seq<Bucket>, daily: bool)
    requires BucketsBy(raw, rows, All(), Hour())
    ensures daily <==> SpansADay(raw)
    ensures |keys| == |series| && (forall i, j :: 0 <= i < j < |keys| ==> keys[i] < keys[j])
    ensures var key := BucketKey(daily, day);
      && (forall k :: k in keys <==> Occurs(rows, All(), key, k))
      && (forall i :: 0 <= i < |keys| ==> BucketOf(series[i], rows, And(All(), KeyIs(key, keys[i]))))
  {
    var rawKeys := SortedKeys(raw);
    daily := |rawKeys| > 1 && rawKeys[|rawKeys| - 1] - rawKeys[0] >= DAY_SPAN;
    WideExactly(rawKeys, raw);
    var buckets := raw;
    ghost var key := BucketKey(daily, day);
    if daily {
      buckets := RollUpAnalyticsBuckets(raw, rawKeys, day, rows);
    }
    assert BucketsBy(buckets, rows, All(), key);
    keys := SortedKeys(buckets);
    series := [];
    for i := 0 to |keys|
      invariant |series| == i && forall k :: 0 <= k < i ==> BucketOf(series[k], rows, And(All(), KeyIs(key, keys[k])))
    {
      assert keys[i] in keys && FiledUnder(buckets, rows, All(), key, keys[i]);
      series := series + [buckets[keys[i]]];
    }
    forall k ensures k in keys <==> Occurs(rows, All(), key, k) {
      assert FiledUnder(buckets, rows, All(), key, k);
    }
  }

  // ---------- The page ----------

  datatype Tally = Tally(models: map<string, Usage>, apiKeys: map<string, Usage>, channels: map<string, Usage>,
      chain: map<string, Chain>, buckets: map<int, Bucket>)

  datatype Overview = Overview(
    models: map<string, Usage>, apiKeys: map<string, Usage>, channels: map<string, Usage>, chain: map<string, Chain>,
    ranked: seq<string>, daily: bool, keys: seq<int>, series: seq<Bucket>)

  /** The untrimmed time line belongs to the rows: see `FinishSeries`. */
  ghost predicate SeriesOf(full: seq<Bucket>, keys: seq<int>, rows: seq<Row>, key: Row -> int) {
    && |full| == |keys| && (forall i, j :: 0 <= i < j < |keys| ==> keys[i] < keys[j])
    && (forall k :: k in keys <==> Occurs(rows, All(), key, k))
    && (forall i :: 0 <= i < |keys| ==> BucketOf(full[i], rows, And(All(), KeyIs(key, keys[i]))))
  }

  function Top(ranked: seq<string>): set<string> { set i | 0 <= i < |ranked| && i < TOP_MODELS :: ranked[i] }

  /** A bucket of the time line as it is shown. */
  ghost predicate ShownAs(b: Bucket, shown: Bucket, keep: set<string>) {
    && shown == b.(byModel := shown.byModel, byModelCost := shown.byModelCost)
    && IsTrimmed(b.byModel, keep, shown.byModel, (v: int) => v as real, TokensIn(b.byModel))
    && IsTrimmed(b.byModelCost, keep, shown.byModelCost, (v: real) => v, CostIn(b.byModelCost))
  }

  /** The five stores of the loop belong to the rows read so far. */
  ghost predicate Tallied(t: Tally, rows: seq<Row>, differ: Row -> bool) {
    && UsageBy(t.models, rows, ModelName()) && UsageBy(t.apiKeys, rows, ApiKeyName())
    && UsageBy(t.channels, rows, ChannelName())
    && ChainsBy(t.chain, rows, differ)
    && BucketsBy(t.buckets, rows, All(), Hour())
  }

  /** One turn of the loop. */
  method TallyRow(t: Tally, row: Row, ghost rows: seq<Row>, differ: Row -> bool) returns (out: Tally)
    requires Tallied(t, rows, differ)
    ensures Tallied(out, rows + [row], differ)
  {
    var channel := DimensionKey(row.channel, "(not routed)");
    var models := AccumulateDimension(t.models, row, rows, ModelName(), DimensionKey(row.model, "(no model)"));
    var apiKeys :=
      AccumulateDimension(t.apiKeys, row, rows, ApiKeyName(), DimensionKey(row.apiKey, "(not authenticated)"));
    var channels := AccumulateDimension(t.channels, row, rows, ChannelName(), channel);
    var chain := AccumulateModelChain(t.chain, channel, row, rows, differ);
    var buckets := AddToBucket(t.buckets, row, rows);
    out := Tally(models, apiKeys, channels, chain, buckets);
  }

  lemma NothingTallied(differ: Row -> bool)
    ensures Tallied(Tally(map[], map[], map[], map[], map[]), [], differ)
  {
    forall k ensures FiledUnder(map[], [], All(), Hour(), k) {}
  }

  /** The fault counters, class by class. */
  method CountFaults(rows: seq<Row>) returns (counts: FaultCounts)
    ensures fresh(counts) && forall c :: counts.Of(c) as real == RowSum(rows, KeyIs(FaultOf(), c), One())
  {
    counts := new FaultCounts();
    for i := 0 to |rows|
      invariant fresh(counts) && forall c :: counts.Of(c) as real == RowSum(rows[..i], KeyIs(FaultOf(), c), One())
    {
      assert rows[..i + 1][..i] == rows[..i];
      counts.ApplyFaultCount(rows[i]);
    }
    assert rows[..|rows|] == rows;
  }

  /** Every part of the page is what the rows of the window add up to. */
  method AnalyticsOverviewStats(rows: seq<Row>, differ: Row -> bool, day: int -> int)
    returns (counts: FaultCounts, out: Overview, ghost full: seq<Bucket>)
    ensures fresh(counts) && forall c :: counts.Of(c) as real == RowSum(rows, KeyIs(FaultOf(), c), One())
    ensures UsageBy(out.models, rows, ModelName()) && UsageBy(out.apiKeys, rows, ApiKeyName())
    ensures UsageBy(out.channels, rows, ChannelName())
    ensures ChainsBy(out.chain, rows, differ)
    ensures (forall k :: k in out.ranked <==> k in out.models) && NoRepeat(out.ranked)
    ensures Sorted(out.ranked, Ranking(out.models))
    ensures SeriesOf(full, out.keys, rows, BucketKey(out.daily, day))
    ensures |out.series| == |full| && forall i :: 0 <= i < |full| ==> ShownAs(full[i], out.series[i], Top(out.ranked))
  {
    var t := Tally(map[], map[], map[], map[], map[]);
    NothingTallied(differ);
    for i := 0 to |rows|
      invariant Tallied(t, rows[..i], differ)
    {
      assert rows[..i + 1] == rows[..i] + [rows[i]];
      t := TallyRow(t, rows[i], rows[..i], differ);
    }
    assert rows[..|rows|] == rows;
    var ranked := RankDimension(t.models);
    var keys, series, daily := FinishSeries(t.buckets, day, rows);
    full := series;
    var shown, keep := TrimAnalyticsSeries(series, ranked);
    out := Overview(t.models, t.apiKeys, t.channels, t.chain, ranked, daily, keys, shown);
    counts := CountFaults(rows);
  }

  /** In each bucket shown, the breakdowns by model still add up to the totals, as long as no row has
      negative tokens or costs and none of the top models bears the name of the merged rest. */
  lemma ShownBreakdownsAddUp(b: Bucket, shown: Bucket, keep: set<string>, rows: seq<Row>, p: Row -> bool)
    requires BucketOf(b, rows, p) && ShownAs(b, shown, keep)
    requires OTHER !in keep
    requires forall r :: r in rows ==> r.prompt + r.completion >= 0 && r.cost >= 0.0
    ensures SumOver(shown.byModel.Keys, TokensIn(shown.byModel)) == shown.tokens as real
    ensures SumOver(shown.byModelCost.Keys, CostIn(shown.byModelCost)) == shown.cost
  {
    PartsAddUp(b, rows, p);
    forall k ensures TokensIn(b.byModel)(k) >= 0.0 && CostIn(b.byModelCost)(k) >= 0.0 {
      assert EntryOf(b, rows, p, k);
      SumNotNegative(rows, And(p, KeyIs(ModelName(), k)), Tokens());
      SumNotNegative(rows, And(p, KeyIs(ModelName(), k)), Cost());
    }
    TailNotNegative(b.byModel.Keys - keep, TokensIn(b.byModel));
    TailNotNegative(b.byModelCost.Keys - keep, CostIn(b.byModelCost));
    TrimKeepsTotalExactly(b.byModel, keep, shown.byModel, (v: int) => v as real, TokensIn(b.byModel),
      TokensIn(shown.byModel));
    TrimKeepsTotalExactly(b.byModelCost, keep, shown.byModelCost, (v: real) => v, CostIn(b.byModelCost),
      CostIn(shown.byModelCost));
  }

  lemma {:induction false} SumNotNegative(rows: seq<Row>, p: Row -> bool, f: Row -> real)
    requires forall r :: r in rows ==> f(r) >= 0.0
    ensures RowSum(rows, p, f) >= 0.0
  {
    if rows != [] { SumNotNegative(rows[..|rows| - 1], p, f); }
  }

  lemma {:induction false} TailNotNegative(ks: set<string>, value: string -> real)
    requires forall k :: k in ks ==> value(k) >= 0.0
    ensures SumOver(ks, value) >= 0.0
  {
    if k :| k in ks {
      SumOverRemove(ks, k, value);
      TailNotNegative(ks - {k}, value);
    }
  }
}
