/** Every figure of the analytics page, told by the columns of the logged rows alone. */
module AnalyticsFigures {
  import opened Common
  import opened Sums
  import opened Analytics
  import opened AnalyticsSeries
  import opened AnalyticsOverview
  import opened Sorting
  import Text

  /** A row is a success or canceled by its status; any other is attributed by the kind of its fault. */
  lemma ClassInFull(row: Row)
    ensures FaultOf()(row) == Success <==> row.status == "success"
    ensures FaultOf()(row) == Canceled <==> row.status == "canceled"
    ensures row.status !in {"success", "canceled"} ==>
      && (FaultOf()(row) == RequestFault <==> row.faultKind == "request")
      && (FaultOf()(row) == MemberFault <==> row.faultKind == "member")
      && (FaultOf()(row) == TransientFault <==> row.faultKind == "transient")
      && (FaultOf()(row) == Unclassified <==> row.faultKind !in {"request", "member", "transient"})
  {
  }

  /** A row is filed under its own names; without one, under a name that no other dimension uses. */
  lemma NamesInFull(row: Row)
    ensures row.model != "" ==> ModelName()(row) == row.model
    ensures row.apiKey != "" ==> ApiKeyName()(row) == row.apiKey
    ensures row.channel != "" ==> ChannelName()(row) == row.channel
    ensures row.model == "" ==> ModelName()(row) == "(no model)"
    ensures row.apiKey == "" ==> ApiKeyName()(row) == "(not authenticated)"
    ensures row.channel == "" ==> ChannelName()(row) == "(not routed)"
  {
  }

  /** The hour of a row: the last full one that is not later. */
  lemma HourInFull(row: Row)
    ensures Hour()(row) <= row.at < Hour()(row) + 3600 && exists n :: Hour()(row) == 3600 * n
  {
    assert Hour()(row) == 3600 * (row.at / 3600);
  }

  /** What is added up over the rows that satisfy `p`. */
  ghost predicate Adds(x: real, rows: seq<Row>, p: Row -> bool, f: Row -> real) { x == RowSum(rows, p, f) }

  /** The usage of a value: its requests, its successes, and its tokens, costs and milliseconds by column. */
  lemma UsageInFull(store: map<string, Usage>, rows: seq<Row>, key: Row -> string, k: string)
    requires UsageBy(store, rows, key) && k in store
    ensures var u, mine := store[k], (r: Row) => key(r) == k;
      && Adds(u.requests as real, rows, mine, (r: Row) => 1.0)
      && Adds(u.success as real, rows, (r: Row) => key(r) == k && r.status == "success", (r: Row) => 1.0)
      && Adds(u.prompt as real, rows, mine, (r: Row) => r.prompt as real)
      && Adds(u.completion as real, rows, mine, (r: Row) => r.completion as real)
      && Adds(u.cached as real, rows, mine, (r: Row) => r.cached as real)
      && Adds(u.reasoning as real, rows, mine, (r: Row) => r.reasoning as real)
      && Adds(u.cost, rows, mine, (r: Row) => r.cost)
      && Adds(u.duration as real, rows, mine, (r: Row) => r.duration as real)
      && u.total == u.prompt + u.completion
  {
    var mine := (r: Row) => key(r) == k;
    var p := KeyIs(key, k);
    RowSumSame(rows, p, One(), mine, (r: Row) => 1.0);
    RowSumSame(rows, And(p, KeyIs(FaultOf(), Success)), One(),
      (r: Row) => key(r) == k && r.status == "success", (r: Row) => 1.0);
    RowSumSame(rows, p, Prompt(), mine, (r: Row) => r.prompt as real);
    RowSumSame(rows, p, Completion(), mine, (r: Row) => r.completion as real);
    RowSumSame(rows, p, Cached(), mine, (r: Row) => r.cached as real);
    RowSumSame(rows, p, Reasoning(), mine, (r: Row) => r.reasoning as real);
    RowSumSame(rows, p, Cost(), mine, (r: Row) => r.cost);
    RowSumSame(rows, p, Duration(), mine, (r: Row) => r.duration as real);
    BothTokens(rows, p);
  }

  lemma {:induction false} BothTokens(rows: seq<Row>, p: Row -> bool)
    ensures RowSum(rows, p, Tokens()) == RowSum(rows, p, Prompt()) + RowSum(rows, p, Completion())
  {
    if rows != [] {
      BothTokens(rows[..|rows| - 1], p);
    }
  }

  /** The model chain of a channel: a row reports a model when there is more than white space in it, and only
      then is matched or mismatched. */
  lemma ChainInFull(store: map<string, Chain>, rows: seq<Row>, differ: Row -> bool, k: string)
    requires ChainsBy(store, rows, differ) && k in store
    ensures var c := store[k];
      && Adds(c.requests as real, rows, (r: Row) => ChannelName()(r) == k, (r: Row) => 1.0)
      && Adds(c.alias as real, rows, (r: Row) => ChannelName()(r) == k && differ(r), (r: Row) => 1.0)
      && Adds(c.silent as real, rows,
              (r: Row) => ChannelName()(r) == k && Text.TrimSpace(r.reported) == "", (r: Row) => 1.0)
      && Adds(c.mismatched as real, rows,
              (r: Row) => ChannelName()(r) == k && Text.TrimSpace(r.reported) != "" && r.mismatch, (r: Row) => 1.0)
      && Adds(c.matched as real, rows,
              (r: Row) => ChannelName()(r) == k && Text.TrimSpace(r.reported) != "" && !r.mismatch, (r: Row) => 1.0)
      && c.reported == c.matched + c.mismatched
  {
    var p := KeyIs(ChannelName(), k);
    var silent, mismatched := (r: Row) => ChannelName()(r) == k && Text.TrimSpace(r.reported) == "",
                              (r: Row) => ChannelName()(r) == k && Text.TrimSpace(r.reported) != "" && r.mismatch;
    var spoken := (r: Row) => ChannelName()(r) == k && Text.TrimSpace(r.reported) != "";
    var matched := (r: Row) => ChannelName()(r) == k && Text.TrimSpace(r.reported) != "" && !r.mismatch;
    RowSumSame(rows, p, One(), (r: Row) => ChannelName()(r) == k, (r: Row) => 1.0);
    RowSumSame(rows, And(p, differ), One(), (r: Row) => ChannelName()(r) == k && differ(r), (r: Row) => 1.0);
    RowSumSame(rows, And(p, Silent()), One(), silent, (r: Row) => 1.0);
    RowSumSame(rows, And(p, (r: Row) => !Silent()(r) && r.mismatch), One(), mismatched, (r: Row) => 1.0);
    RowSumSplit(rows, silent, spoken, p, (r: Row) => 1.0);
    RowSumSplit(rows, mismatched, matched, spoken, (r: Row) => 1.0);
    RowSumSame(rows, p, (r: Row) => 1.0, p, One());
  }

  /** A bucket of the time line, and its breakdown by model. */
  lemma BucketInFull(b: Bucket, rows: seq<Row>, p: Row -> bool, model: string)
    requires BucketOf(b, rows, p)
    ensures Adds(b.requests as real, rows, p, (r: Row) => 1.0)
    ensures Adds(b.success as real, rows, (r: Row) => p(r) && r.status == "success", (r: Row) => 1.0)
    ensures Adds(b.tokens as real, rows, p, (r: Row) => (r.prompt + r.completion) as real)
    ensures Adds(b.cost, rows, p, (r: Row) => r.cost)
    ensures model in b.byModel <==> exists r :: r in rows && p(r) && ModelName()(r) == model
    ensures model in b.byModel ==>
      Adds(b.byModel[model] as real, rows, (r: Row) => p(r) && ModelName()(r) == model,
           (r: Row) => (r.prompt + r.completion) as real)
    ensures model in b.byModelCost <==> model in b.byModel
    ensures model in b.byModelCost ==>
      Adds(b.byModelCost[model], rows, (r: Row) => p(r) && ModelName()(r) == model, (r: Row) => r.cost)
  {
    assert EntryOf(b, rows, p, model);
    var named := And(p, KeyIs(ModelName(), model));
    RowSumSame(rows, p, One(), p, (r: Row) => 1.0);
    RowSumSame(rows, And(p, KeyIs(FaultOf(), Success)), One(),
      (r: Row) => p(r) && r.status == "success", (r: Row) => 1.0);
    RowSumSame(rows, p, Tokens(), p, (r: Row) => (r.prompt + r.completion) as real);
    RowSumSame(rows, p, Cost(), p, (r: Row) => r.cost);
    RowSumSame(rows, named, Tokens(), (r: Row) => p(r) && ModelName()(r) == model,
      (r: Row) => (r.prompt + r.completion) as real);
    RowSumSame(rows, named, Cost(), (r: Row) => p(r) && ModelName()(r) == model, (r: Row) => r.cost);
  }

  /** Ranked names come by requests, and by name where requests are equal. */
  ghost predicate RankedRight(store: map<string, Usage>, ranked: seq<string>) {
    && NoRepeat(ranked) && (forall k :: k in ranked <==> k in store)
    && forall i, j :: 0 <= i < j < |ranked| && ranked[i] in store && ranked[j] in store ==>
         && store[ranked[j]].requests <= store[ranked[i]].requests
         && (store[ranked[j]].requests == store[ranked[i]].requests ==> Text.AtMost(ranked[i], ranked[j]))
  }

  /** The models kept apart in the time line are eight, or all there are, and none that is left out has more
      requests than one of them. */
  lemma TopInFull(store: map<string, Usage>, ranked: seq<string>)
    requires NoRepeat(ranked) && (forall k :: k in ranked <==> k in store) && Sorted(ranked, Ranking(store))
    ensures RankedRight(store, ranked)
    ensures |Top(ranked)| == if |ranked| < 8 then |ranked| else 8
    ensures forall kept, left :: kept in Top(ranked) && left in store && left !in Top(ranked) ==>
      kept in store && store[left].requests <= store[kept].requests
  {
    forall i, j | 0 <= i < j < |ranked| && ranked[i] in store && ranked[j] in store
      ensures store[ranked[j]].requests <= store[ranked[i]].requests
      ensures store[ranked[j]].requests == store[ranked[i]].requests ==> Text.AtMost(ranked[i], ranked[j])
    {
      assert Ranking(store)(ranked[i], ranked[j]);
    }
    TopIsFirst(ranked, if |ranked| < 8 then |ranked| else 8);
    forall kept, left | kept in Top(ranked) && left in store && left !in Top(ranked)
      ensures kept in store && store[left].requests <= store[kept].requests
    {
      var i :| 0 <= i < |ranked| && i < TOP_MODELS && ranked[i] == kept;
      assert kept in ranked && left in ranked;
      var j :| 0 <= j < |ranked| && ranked[j] == left;
      assert i < j;
    }
  }

  lemma {:induction false} CountOfFirst(ranked: seq<string>, n: nat)
    requires NoRepeat(ranked) && n <= |ranked|
    ensures |(set i | 0 <= i < n :: ranked[i])| == n
  {
    if n > 0 {
      CountOfFirst(ranked, n - 1);
      assert (set i | 0 <= i < n :: ranked[i]) == (set i | 0 <= i < n - 1 :: ranked[i]) + {ranked[n - 1]};
    }
  }

  lemma TopIsFirst(ranked: seq<string>, n: nat)
    requires NoRepeat(ranked) && n == if |ranked| < 8 then |ranked| else 8
    ensures |Top(ranked)| == n
  {
    assert Top(ranked) == set i | 0 <= i < n :: ranked[i];
    CountOfFirst(ranked, n);
  }
}
