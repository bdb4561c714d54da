/** The call analytics of a window of logged requests: fault counters, usage by model, client key and
    channel, the model chain of each channel and the time line.

    Every figure is specified as a sum over the rows it is about. That the parts of a figure add up to
    the whole then follows from `GroupsPartition`. */
module Analytics {
  import opened Sums
  import opened Text

  datatype Row = Row(status: string, faultKind: string, model: string, apiKey: string, channel: string,
      targetModel: string, reported: string, mismatch: bool, prompt: int, completion: int, cached: int, reasoning: int,
      cost: real, duration: int, at: int)

  // What is summed up, for one row.
  function Tokens(): Row -> real { (r: Row) => (r.prompt + r.completion) as real }
  function Prompt(): Row -> real { (r: Row) => r.prompt as real }
  function Completion(): Row -> real { (r: Row) => r.completion as real }
  function Cached(): Row -> real { (r: Row) => r.cached as real }
  function Reasoning(): Row -> real { (r: Row) => r.reasoning as real }
  function Cost(): Row -> real { (r: Row) => r.cost }
  function Duration(): Row -> real { (r: Row) => r.duration as real }

  // ---------- Fault counters ----------

  datatype Fault = Success | Canceled | RequestFault | MemberFault | TransientFault | Unclassified

  /** The one class a row falls into: only a failure is attributed, and an unknown attribution stays unknown. */
  function FaultOf(): Row -> Fault {
    (r: Row) =>
      if r.status == "success" then Success
      else if r.status == "canceled" then Canceled
      else if r.faultKind == "request" then RequestFault
      else if r.faultKind == "member" then MemberFault
      else if r.faultKind == "transient" then TransientFault
      else Unclassified
  }

  class FaultCounts {
    var success: int
    var canceled: int
    var request: int
    var member: int
    var transient: int
    var unclassified: int

    ghost function Of(c: Fault): int
      reads this
    {
      match c
      case Success => success
      case Canceled => canceled
      case RequestFault => request
      case MemberFault => member
      case TransientFault => transient
      case Unclassified => unclassified
    }

    constructor ()
      ensures forall c :: Of(c) == 0
    {
      success, canceled, request, member, transient, unclassified := 0, 0, 0, 0, 0, 0;
    }

    /** Counts one row in its own class and nowhere else. */
    method ApplyFaultCount(row: Row)
      modifies this
      ensures forall c :: Of(c) == old(Of(c)) + if c == FaultOf()(row) then 1 else 0
    {
      if row.status == "success" {
        success := success + 1;
        return;
      }
      if row.status == "canceled" {
        canceled := canceled + 1;
        return;
      }
      if row.faultKind == "request" {
        request := request + 1;
      } else if row.faultKind == "member" {
        member := member + 1;
      } else if row.faultKind == "transient" {
        transient := transient + 1;
      } else {
        unclassified := unclassified + 1;
      }
    }

    method Total() returns (n: int)
      ensures n == success + canceled + request + member + transient + unclassified
    {
      n := success + canceled + request + member + transient + unclassified;
    }
  }

  const FAULTS: set<Fault> := {Success, Canceled, RequestFault, MemberFault, TransientFault, Unclassified}

  lemma ClassesPartition(rows: seq<Row>, classes: set<Fault>, count: Fault -> real)
    requires forall c :: c in classes
    requires forall c :: count(c) == RowSum(rows, KeyIs(FaultOf(), c), One())
    ensures SumOver(classes, count) == |rows| as real
  {
    var parts := c => RowSum(rows, And(All(), KeyIs(FaultOf(), c)), One());
    GroupsPartition(rows, All(), FaultOf(), classes, One());
    RowSumCount(rows);
    forall c ensures count(c) == parts(c) {
      RowSumEqual(rows, KeyIs(FaultOf(), c), And(All(), KeyIs(FaultOf(), c)), One());
    }
    SumOverEqual(classes, count, parts);
  }

  /** Counts by class add up to the number of rows. */
  lemma FaultCountsAddUp(rows: seq<Row>, count: Fault -> real)
    requires forall c :: count(c) == RowSum(rows, KeyIs(FaultOf(), c), One())
    ensures |rows| as real ==
      count(Success) + count(Canceled) + count(RequestFault) + count(MemberFault) + count(TransientFault)
      + count(Unclassified)
  {
    forall c: Fault ensures c in FAULTS {
      match c {
        case Success =>
        case Canceled =>
        case RequestFault =>
        case MemberFault =>
        case TransientFault =>
        case Unclassified =>
      }
    }
    ClassesPartition(rows, FAULTS, count);
    SumOverSix(count);
  }

  lemma SumOverSix(g: Fault -> real)
    ensures SumOver(FAULTS, g) ==
      g(Success) + g(Canceled) + g(RequestFault) + g(MemberFault) + g(TransientFault) + g(Unclassified)
  {
    SumOverRemove(FAULTS, Success, g);
    SumOverRemove(FAULTS - {Success}, Canceled, g);
    SumOverRemove(FAULTS - {Success, Canceled}, RequestFault, g);
    SumOverRemove(FAULTS - {Success, Canceled, RequestFault}, MemberFault, g);
    SumOverRemove(FAULTS - {Success, Canceled, RequestFault, MemberFault}, TransientFault, g);
    SumOverRemove(FAULTS - {Success, Canceled, RequestFault, MemberFault, TransientFault}, Unclassified, g);
    assert FAULTS - {Success} - {Canceled} == FAULTS - {Success, Canceled};
    assert FAULTS - {Success, Canceled} - {RequestFault} == FAULTS - {Success, Canceled, RequestFault};
    assert FAULTS - {Success, Canceled, RequestFault} - {MemberFault} ==
      FAULTS - {Success, Canceled, RequestFault, MemberFault};
    assert FAULTS - {Success, Canceled, RequestFault, MemberFault} - {TransientFault} == {Unclassified};
    assert {Unclassified} - {Unclassified} == {};
  }

  // ---------- Usage by a dimension ----------

  /** The value a row is filed under; an empty one has a name of its own in each dimension. */
  function DimensionKey(value: string, fallback: string): string { if value == "" then fallback else value }

  function ModelName(): Row -> string { (r: Row) => DimensionKey(r.model, "(no model)") }
  function ApiKeyName(): Row -> string { (r: Row) => DimensionKey(r.apiKey, "(not authenticated)") }
  function ChannelName(): Row -> string { (r: Row) => DimensionKey(r.channel, "(not routed)") }

  datatype Usage = Usage(requests: int, success: int, prompt: int, completion: int, total: int, cached: int,
      reasoning: int, cost: real, duration: int)

  const NO_USAGE := Usage(0, 0, 0, 0, 0, 0, 0, 0.0, 0)

  /** The usage record says what the rows that satisfy `p` add up to. */
  ghost predicate UsageOf(u: Usage, rows: seq<Row>, p: Row -> bool) {
    && u.requests as real == RowSum(rows, p, One())
    && u.success as real == RowSum(rows, And(p, KeyIs(FaultOf(), Success)), One())
    && u.prompt as real == RowSum(rows, p, Prompt()) && u.completion as real == RowSum(rows, p, Completion())
    && u.total as real == RowSum(rows, p, Tokens())
    && u.cached as real == RowSum(rows, p, Cached()) && u.reasoning as real == RowSum(rows, p, Reasoning())
    && u.cost == RowSum(rows, p, Cost()) && u.duration as real == RowSum(rows, p, Duration())
  }

  /** The store holds one record for each value that occurs, and it is the record of that value's rows. */
  ghost predicate UsageBy(store: map<string, Usage>, rows: seq<Row>, key: Row -> string) {
    && (forall k :: k in store <==> exists r :: r in rows && key(r) == k)
    && forall k :: k in store ==> UsageOf(store[k], rows, KeyIs(key, k))
  }

  lemma {:induction false} NoRowsNoSum(rows: seq<Row>, p: Row -> bool)
    requires forall r :: r in rows ==> !p(r)
    ensures forall f: Row -> real :: RowSum(rows, p, f) == 0.0
  {
    if rows != [] { NoRowsNoSum(rows[..|rows| - 1], p); }
  }

  /** Files one more row under its value. */
  method AccumulateDimension(store: map<string, Usage>, row: Row, ghost rows: seq<Row>, ghost key: Row -> string,
      name: string) returns (out: map<string, Usage>)
    requires UsageBy(store, rows, key) && name == key(row)
    ensures UsageBy(out, rows + [row], key)
  {
    RowSumSnoc(rows, row);
    var stat := NO_USAGE;
    if name in store {
      stat := store[name];
    } else {
      NoRowsNoSum(rows, KeyIs(key, name));
      NoRowsNoSum(rows, And(KeyIs(key, name), KeyIs(FaultOf(), Success)));
    }
    assert UsageOf(stat, rows, KeyIs(key, name));
    stat := stat.(requests := stat.requests + 1);
    if row.status == "success" {
      stat := stat.(success := stat.success + 1);
    }
    stat := stat.(
      prompt := stat.prompt + row.prompt, completion := stat.completion + row.completion,
      total := stat.total + row.prompt + row.completion, cached := stat.cached + row.cached,
      reasoning := stat.reasoning + row.reasoning, cost := stat.cost + row.cost, duration :=
        stat.duration + row.duration);
    out := store[name := stat];
    assert UsageOf(stat, rows + [row], KeyIs(key, name));
    forall k | k in out && k != name ensures UsageOf(out[k], rows + [row], KeyIs(key, k)) {
      assert UsageOf(store[k], rows, KeyIs(key, k));
    }
    assert forall r :: r in rows + [row] <==> r in rows || r == row;
  }

  function RequestsIn(store: map<string, Usage>): string -> real {
    k => if k in store then store[k].requests as real else 0.0
  }

  /** Every row is counted once in each dimension. */
  lemma DimensionCountsEveryRow(store: map<string, Usage>, rows: seq<Row>, key: Row -> string)
    requires UsageBy(store, rows, key)
    ensures SumOver(store.Keys, RequestsIn(store)) == |rows| as real
  {
    GroupsPartition(rows, All(), key, store.Keys, One());
    RowSumCount(rows);
    var parts := k => RowSum(rows, And(All(), KeyIs(key, k)), One());
    forall k | k in store ensures RequestsIn(store)(k) == parts(k) {
      assert UsageOf(store[k], rows, KeyIs(key, k));
      RowSumEqual(rows, KeyIs(key, k), And(All(), KeyIs(key, k)), One());
    }
    SumOverEqual(store.Keys, RequestsIn(store), parts);
  }

  // ---------- The model chain ----------

  function Silent(): Row -> bool { (r: Row) => TrimSpace(r.reported) == "" }

  datatype Chain = Chain(requests: int, alias: int, reported: int, matched: int, mismatched: int, silent: int)

  /** What is counted for one channel. A row counts as matched or mismatched only if the upstream has
      reported a model at all. */
  ghost predicate ChainOf(c: Chain, rows: seq<Row>, p: Row -> bool, differ: Row -> bool) {
    && c.requests as real == RowSum(rows, p, One())
    && c.alias as real == RowSum(rows, And(p, differ), One())
    && c.silent as real == RowSum(rows, And(p, Silent()), One())
    && c.mismatched as real == RowSum(rows, And(p, (r: Row) => !Silent()(r) && r.mismatch), One())
    && c.requests == c.reported + c.silent && c.reported == c.matched + c.mismatched
  }

  ghost predicate ChainsBy(store: map<string, Chain>, rows: seq<Row>, differ: Row -> bool) {
    && (forall k :: k in store <==> exists r :: r in rows && ChannelName()(r) == k)
    && forall k :: k in store ==> ChainOf(store[k], rows, KeyIs(ChannelName(), k), differ)
  }

  /** Files one more row under its channel; `differ` is the comparison of the requested with the target name. */
  method AccumulateModelChain(store: map<string, Chain>, channel: string, row: Row, ghost rows: seq<Row>,
      differ: Row -> bool) returns (out: map<string, Chain>)
    requires ChainsBy(store, rows, differ) && channel == ChannelName()(row)
    ensures ChainsBy(out, rows + [row], differ)
  {
    RowSumSnoc(rows, row);
    var stat := Chain(0, 0, 0, 0, 0, 0);
    if channel in store {
      stat := store[channel];
    } else {
      NoRowsNoSum(rows, KeyIs(ChannelName(), channel));
      NoRowsNoSum(rows, And(KeyIs(ChannelName(), channel), differ));
      NoRowsNoSum(rows, And(KeyIs(ChannelName(), channel), Silent()));
      NoRowsNoSum(rows, And(KeyIs(ChannelName(), channel), (r: Row) => !Silent()(r) && r.mismatch));
    }
    assert ChainOf(stat, rows, KeyIs(ChannelName(), channel), differ);
    stat := stat.(requests := stat.requests + 1);
    if differ(row) {
      stat := stat.(alias := stat.alias + 1);
    }
    if TrimSpace(row.reported) == "" {
      stat := stat.(silent := stat.silent + 1);
    } else {
      stat := stat.(reported := stat.reported + 1);
      if row.mismatch {
        stat := stat.(mismatched := stat.mismatched + 1);
      } else {
        stat := stat.(matched := stat.matched + 1);
      }
    }
    out := store[channel := stat];
    assert ChainOf(stat, rows + [row], KeyIs(ChannelName(), channel), differ);
    forall k | k in out && k != channel ensures ChainOf(out[k], rows + [row], KeyIs(ChannelName(), k), differ) {
      assert ChainOf(store[k], rows, KeyIs(ChannelName(), k), differ);
    }
    assert forall r :: r in rows + [row] <==> r in rows || r == row;
  }
}
