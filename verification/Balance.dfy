/** The balance summary: every channel's money from the most trusted source there is, plus the
    subscriptions that belong to no channel, each counted once. */
module Balance {
  import opened Common
  import opened Sums
  import Sorting

  /** Points entered by hand on the channel itself, and its monthly quota. */
  datatype Channel = Channel(points: real, monthlyQuota: real, monthlyUsed: real)

  datatype Reading = Reading(value: real, inCurrency: bool)

  /** A subscription entered by hand; channel 0 stands for none, unit 0 for the general one. */
  datatype Subscription = Subscription(channel: int, points: real, unit: real, expireAt: int, enabled: bool)

  datatype Row = Row(id: int, channel: int, enabled: bool, expired: bool, balance: real)

  const DEFAULT_UNIT := 500000.0

  function Convert(points: real, unit: real): real { points / if unit <= 0.0 then DEFAULT_UNIT else unit }

  // ---------- Subscriptions ----------

  const DAY := 86400

  /** Days until a date, in seconds, is reached: a started day counts in full. Without a date there is
      no number of days, and it is never reached. */
  function DaysLeft(expireAt: int, now: int): (r: (int, bool))
    ensures r.0 == -1 <==> expireAt <= 0
    ensures r.0 == 0 <==> r.1
    ensures r.1 <==> 0 < expireAt <= now
    ensures 0 < expireAt && now < expireAt ==> (r.0 - 1) * DAY < expireAt - now <= r.0 * DAY
  {
    if expireAt <= 0 then (-1, false)
    else
      var delta := expireAt - now;
      if delta <= 0 then (0, true) else (delta / DAY + (if delta % DAY != 0 then 1 else 0), false)
  }

  function RowOf(id: int, s: Subscription, unit: real, now: int): Row {
    Row(id, s.channel, s.enabled, DaysLeft(s.expireAt, now).1,
      Convert(s.points, if s.unit <= 0.0 then unit else s.unit))
  }

  /** What subscriptions are listed by. */
  datatype Key = Key(channel: int, id: int)

  function ByChannelThenId(): (Key, Key) -> bool {
    (a: Key, b: Key) => a.channel < b.channel || (a.channel == b.channel && a.id <= b.id)
  }

  lemma KeysAreOrdered()
    ensures Sorting.TotalOrder(ByChannelThenId())
  {
    forall x, y | ByChannelThenId()(x, y) && ByChannelThenId()(y, x) ensures x == y {
      assert x.channel == y.channel && x.id == y.id;
    }
  }

  ghost predicate Ordered(rows: seq<Row>) {
    forall i, j :: 0 <= i < j < |rows| ==>
      rows[i].channel < rows[j].channel || (rows[i].channel == rows[j].channel && rows[i].id <= rows[j].id)
  }

  predicate Known(subscriptions: map<int, Subscription>, ids: seq<int>) {
    forall k :: 0 <= k < |ids| ==> ids[k] in subscriptions
  }

  function KeysOf(subscriptions: map<int, Subscription>, ids: seq<int>): (keys: seq<Key>)
    requires Known(subscriptions, ids)
    ensures |keys| == |ids| && forall k :: 0 <= k < |ids| ==> keys[k] == Key(subscriptions[ids[k]].channel, ids[k])
  {
    if ids == [] then []
    else
      var last := ids[|ids| - 1];
      KeysOf(subscriptions, ids[..|ids| - 1]) + [Key(subscriptions[last].channel, last)]
  }

  /** One row for every subscription, by channel and then by id. */
  method ManualSubscriptionRows(subscriptions: map<int, Subscription>, ids: seq<int>, unit: real, now: int)
      returns (rows: seq<Row>)
    requires Known(subscriptions, ids)
    ensures Ordered(rows) && |rows| == |ids|
    ensures forall r :: r in rows ==>
      r.id in ids && r.id in subscriptions && r == RowOf(r.id, subscriptions[r.id], unit, now)
    ensures forall k :: 0 <= k < |ids| ==> RowOf(ids[k], subscriptions[ids[k]], unit, now) in rows
  {
    var keys := KeysOf(subscriptions, ids);
    var sorted := Sorting.Sort(keys, ByChannelThenId());
    SortedKeys(subscriptions, ids, sorted);
    rows := [];
    for k := 0 to |sorted|
      invariant |rows| == k
      invariant forall i :: 0 <= i < k ==> rows[i] == RowOf(sorted[i].id, subscriptions[sorted[i].id], unit, now)
    {
      rows := rows + [RowOf(sorted[k].id, subscriptions[sorted[k].id], unit, now)];
    }
    RowsOfKeys(subscriptions, ids, unit, now, sorted, rows);
  }

  lemma RowsOfKeys(subscriptions: map<int, Subscription>, ids: seq<int>, unit: real, now: int, sorted: seq<Key>,
      rows: seq<Row>)
    requires Known(subscriptions, ids) && sorted == Sorting.Sort(KeysOf(subscriptions, ids), ByChannelThenId())
    requires |rows| == |sorted| && forall i :: 0 <= i < |rows| ==> sorted[i].id in subscriptions
    requires forall i :: 0 <= i < |rows| ==> rows[i] == RowOf(sorted[i].id, subscriptions[sorted[i].id], unit, now)
    ensures Ordered(rows)
    ensures forall r :: r in rows ==>
      r.id in ids && r.id in subscriptions && r == RowOf(r.id, subscriptions[r.id], unit, now)
    ensures forall k :: 0 <= k < |ids| ==> RowOf(ids[k], subscriptions[ids[k]], unit, now) in rows
  {
    SortedKeys(subscriptions, ids, sorted);
    forall i, j | 0 <= i < j < |rows|
      ensures rows[i].channel < rows[j].channel || (rows[i].channel == rows[j].channel && rows[i].id <= rows[j].id)
    {
      assert ByChannelThenId()(sorted[i], sorted[j]);
    }
    forall i | 0 <= i < |ids| ensures RowOf(ids[i], subscriptions[ids[i]], unit, now) in rows {
      var k :| 0 <= k < |sorted| && sorted[k].id == ids[i];
      assert rows[k] == RowOf(ids[i], subscriptions[ids[i]], unit, now);
    }
  }

  lemma SortedKeys(subscriptions: map<int, Subscription>, ids: seq<int>, sorted: seq<Key>)
    requires Known(subscriptions, ids)
    requires sorted == Sorting.Sort(KeysOf(subscriptions, ids), ByChannelThenId())
    ensures |sorted| == |ids| && Sorting.Sorted(sorted, ByChannelThenId())
    ensures forall k :: 0 <= k < |sorted| ==>
      sorted[k].id in ids && sorted[k].id in subscriptions && sorted[k].channel == subscriptions[sorted[k].id].channel
    ensures forall i :: 0 <= i < |ids| ==> exists k :: 0 <= k < |sorted| && sorted[k].id == ids[i]
  {
    var keys := KeysOf(subscriptions, ids);
    KeysAreOrdered();
    Sorting.SortIsSorted(keys, ByChannelThenId());
    forall k | 0 <= k < |sorted|
      ensures sorted[k].id in ids && sorted[k].id in subscriptions
      ensures sorted[k].channel == subscriptions[sorted[k].id].channel
    {
      assert sorted[k] in sorted;
      var i :| 0 <= i < |keys| && keys[i] == sorted[k];
      assert sorted[k].id == ids[i];
    }
    forall i | 0 <= i < |ids| ensures exists k :: 0 <= k < |sorted| && sorted[k].id == ids[i] {
      assert keys[i] in keys;
      assert keys[i] in sorted;
    }
  }

  predicate Usable(r: Row) { r.enabled && !r.expired }

  /** The row that stands in for the reading of a channel: its first usable one. */
  function FirstUsable(rows: seq<Row>, channel: int): Option<Row> {
    if rows == [] then None
    else
      var before, last := FirstUsable(rows[..|rows| - 1], channel), rows[|rows| - 1];
      if before.Some? then before
      else if last.channel == channel && channel != 0 && Usable(last) then Some(last) else None
  }

  lemma {:induction false} FirstUsableFacts(rows: seq<Row>, channel: int)
    ensures FirstUsable(rows, channel).Some? <==>
      channel != 0 && exists i :: 0 <= i < |rows| && rows[i].channel == channel && Usable(rows[i])
    ensures FirstUsable(rows, channel).Some? ==>
      exists i :: 0 <= i < |rows| && IsFirst(rows, channel, i) && FirstUsable(rows, channel) == Some(rows[i])
  {
    if rows != [] {
      var init := rows[..|rows| - 1];
      FirstUsableFacts(init, channel);
      if FirstUsable(init, channel).Some? {
        var i :| 0 <= i < |init| && IsFirst(init, channel, i) && FirstUsable(init, channel) == Some(init[i]);
        assert IsFirst(rows, channel, i);
      } else if FirstUsable(rows, channel).Some? {
        assert IsFirst(rows, channel, |rows| - 1);
      }
    }
  }

  ghost predicate IsFirst(rows: seq<Row>, channel: int, i: nat) {
    i < |rows| && rows[i].channel == channel && Usable(rows[i])
    && forall k :: 0 <= k < i && rows[k].channel == channel ==> !Usable(rows[k])
  }

  /** Among the usable rows of a channel, the one with the lowest id. */
  lemma FirstHasLowestId(rows: seq<Row>, channel: int, r: Row)
    requires Ordered(rows) && r in rows && r.channel == channel && Usable(r) && channel != 0
    ensures FirstUsable(rows, channel).Some? && FirstUsable(rows, channel).value.id <= r.id
  {
    FirstUsableFacts(rows, channel);
    var j :| 0 <= j < |rows| && rows[j] == r;
    var i :| 0 <= i < |rows| && IsFirst(rows, channel, i) && FirstUsable(rows, channel) == Some(rows[i]);
    assert i <= j;
  }

  method ManualSubscriptionByChannel(rows: seq<Row>) returns (out: map<int, Row>)
    ensures forall c :: (if c in out then Some(out[c]) else None) == FirstUsable(rows, c)
  {
    out := map[];
    for i := 0 to |rows|
      invariant forall c :: (if c in out then Some(out[c]) else None) == FirstUsable(rows[..i], c)
    {
      var row := rows[i];
      ghost var upto := rows[..i + 1];
      assert upto[..i] == rows[..i] && upto[i] == row;
      if row.channel == 0 || !Usable(row) {
        continue;
      }
      if row.channel !in out {
        out := out[row.channel := row];
      }
    }
    assert rows[..|rows|] == rows;
  }

  // ---------- Where a channel's money comes from ----------

  datatype Facts = Facts(channels: map<int, Channel>, readings: map<int, Reading>, reasons: map<int, string>,
      rows: seq<Row>, unit: real)

  datatype Origin = ByReading | BySubscription | ByHand | Unread

  function OriginOf(f: Facts, c: int): Origin {
    if c in f.readings then ByReading
    else if FirstUsable(f.rows, c).Some? then BySubscription
    else if c in f.channels && f.channels[c].points > 0.0 then ByHand
    else Unread
  }

  function Money(f: Facts, c: int): real {
    match OriginOf(f, c)
    case ByReading => if f.readings[c].inCurrency then f.readings[c].value else Convert(f.readings[c].value, f.unit)
    case BySubscription => FirstUsable(f.rows, c).value.balance
    case ByHand => Convert(f.channels[c].points, f.unit)
    case Unread => 0.0
  }

  const NO_RECORD := "no_record"

  /** Every channel without a reading has a reason, if only that nothing is recorded. */
  function ReasonOf(f: Facts, c: int): (r: string)
    ensures r != ""
    ensures c in f.reasons && f.reasons[c] != "" ==> r == f.reasons[c]
  {
    if c in f.reasons && f.reasons[c] != "" then f.reasons[c] else NO_RECORD
  }

  function MonthlyRemaining(quota: real, used: real): (r: real)
    ensures r >= 0.0
    ensures quota <= 0.0 || quota < used ==> r == 0.0
    ensures quota > 0.0 && quota >= used ==> r + used == quota
  {
    if quota <= 0.0 || quota - used < 0.0 then 0.0 else quota - used
  }

  /** Points in the unit of a conversion; without a positive one, 500 000 points make one. */
  ghost predicate Worth(money: real, points: real, unit: real) {
    && (unit > 0.0 ==> money * unit == points)
    && (unit <= 0.0 ==> money * 500000.0 == points)
  }

  lemma ConvertInFull(points: real, unit: real)
    ensures Worth(Convert(points, unit), points, unit)
  {
  }

  /** The row of a subscription: it can be used when it is enabled and its date, if it has one, is not
      reached; its own unit comes before the general one. */
  lemma RowInFull(id: int, s: Subscription, unit: real, now: int)
    ensures var r := RowOf(id, s, unit, now);
      && r.id == id && r.channel == s.channel
      && (Usable(r) <==> s.enabled && !(0 < s.expireAt <= now)) && (r.expired <==> 0 < s.expireAt <= now)
      && (s.unit > 0.0 ==> Worth(r.balance, s.points, s.unit))
      && (s.unit <= 0.0 ==> Worth(r.balance, s.points, unit))
  {
    ConvertInFull(s.points, if s.unit <= 0.0 then unit else s.unit);
  }

  /** Where a channel's money comes from: its reading, in currency or in points; without one, the first usable
      subscription of the channel; without one, the points entered by hand; without any, nothing. */
  lemma MoneyInFull(f: Facts, c: int)
    requires c in f.channels
    ensures c in f.readings ==>
      && (f.readings[c].inCurrency ==> Money(f, c) == f.readings[c].value)
      && (!f.readings[c].inCurrency ==> Worth(Money(f, c), f.readings[c].value, f.unit))
    ensures c !in f.readings && c != 0 ==>
      forall i :: 0 <= i < |f.rows| && IsFirst(f.rows, c, i) ==> Money(f, c) == f.rows[i].balance
    ensures var bound := c != 0 && exists i :: 0 <= i < |f.rows| && f.rows[i].channel == c && Usable(f.rows[i]);
      && (c !in f.readings && !bound && f.channels[c].points > 0.0 ==>
            Worth(Money(f, c), f.channels[c].points, f.unit))
      && (c !in f.readings && !bound && f.channels[c].points <= 0.0 ==> Money(f, c) == 0.0)
      && (OriginOf(f, c) == Unread <==> c !in f.readings && !bound && f.channels[c].points <= 0.0)
      && (OriginOf(f, c) == BySubscription <==> c !in f.readings && bound)
  {
    FirstUsableFacts(f.rows, c);
    ConvertInFull(f.channels[c].points, f.unit);
    if c in f.readings {
      ConvertInFull(f.readings[c].value, f.unit);
    } else if c != 0 {
      forall i | 0 <= i < |f.rows| && IsFirst(f.rows, c, i) ensures Money(f, c) == f.rows[i].balance {
        var k :| 0 <= k < |f.rows| && IsFirst(f.rows, c, k) && FirstUsable(f.rows, c) == Some(f.rows[k]);
        assert k == i;
      }
    }
  }

  // The parts of the summary, as functions of one channel or one row.
  function MoneyOf(f: Facts): int -> real { c => Money(f, c) }
  function MonthlyOf(f: Facts): int -> real {
    c => if c in f.channels then MonthlyRemaining(f.channels[c].monthlyQuota, f.channels[c].monthlyUsed) else 0.0
  }
  function From(f: Facts, o: Origin): int -> bool { c => OriginOf(f, c) == o }
  function Read(f: Facts): int -> bool { c => OriginOf(f, c) != Unread }
  function UnreadFor(f: Facts, reason: string): int -> bool {
    c => OriginOf(f, c) == Unread && ReasonOf(f, c) == reason
  }
  function Unbound(): Row -> bool { (r: Row) => Usable(r) && r.channel == 0 }
  function Expired(): Row -> bool { (r: Row) => r.expired }
  function BalanceOf(): Row -> real { (r: Row) => r.balance }

  /** What the rows themselves add: the balances of usable rows bound to no channel; and how many are expired. */
  lemma UnboundInFull(rows: seq<Row>)
    ensures RowSum(rows, Unbound(), BalanceOf()) ==
      RowSum(rows, (r: Row) => r.enabled && !r.expired && r.channel == 0, (r: Row) => r.balance)
    ensures RowSum(rows, Expired(), One()) == RowSum(rows, (r: Row) => r.expired, (r: Row) => 1.0)
  {
    RowSumSame(rows, Unbound(), BalanceOf(),
               (r: Row) => r.enabled && !r.expired && r.channel == 0, (r: Row) => r.balance);
    RowSumSame(rows, Expired(), One(), (r: Row) => r.expired, (r: Row) => 1.0);
  }

  datatype Summary = Summary(total: real, manualTotal: real, known: nat, unknown: nat, reasons: map<string, nat>,
      monthly: real, expired: nat, counted: seq<bool>)

  /** The channel part of a summary over some channels. */
  ghost predicate SumsChannels(f: Facts, order: seq<int>, s: Summary) {
    && s.total == RowSum(order, All(), MoneyOf(f))
    && s.manualTotal == RowSum(order, From(f, BySubscription), MoneyOf(f))
    && s.monthly == RowSum(order, All(), MonthlyOf(f))
    && s.known as real == RowSum(order, Read(f), One())
    && s.unknown as real == RowSum(order, From(f, Unread), One())
    && (forall r :: (if r in s.reasons then s.reasons[r] else 0) as real == RowSum(order, UnreadFor(f, r), One()))
    && (forall r :: r in s.reasons ==> s.reasons[r] > 0)
  }

  /** What one channel adds. */
  function Plus(f: Facts, s: Summary, c: int): Summary
    requires c in f.channels
  {
    var o, reason := OriginOf(f, c), ReasonOf(f, c);
    s.(total := s.total + Money(f, c),
       manualTotal := s.manualTotal + if o == BySubscription then Money(f, c) else 0.0,
       monthly := s.monthly + MonthlyRemaining(f.channels[c].monthlyQuota, f.channels[c].monthlyUsed),
       known := s.known + if o == Unread then 0 else 1,
       unknown := s.unknown + if o == Unread then 1 else 0,
       reasons := if o == Unread then s.reasons[reason := (if reason in s.reasons then s.reasons[reason] else 0) + 1]
         else s.reasons)
  }

  lemma PlusSums(f: Facts, order: seq<int>, s: Summary, c: int)
    requires c in f.channels && SumsChannels(f, order, s)
    ensures SumsChannels(f, order + [c], Plus(f, s, c))
  {
    RowSumSnoc(order, c);
  }

  /** Reads one channel into the summary; `used` collects the channels paid for by a subscription. */
  method AddChannel(f: Facts, manualByChannel: map<int, Row>, s: Summary, c: int, used: set<int>)
      returns (out: Summary, used': set<int>)
    requires c in f.channels
    requires forall k :: (if k in manualByChannel then Some(manualByChannel[k]) else None) == FirstUsable(f.rows, k)
    ensures out == Plus(f, s, c)
    ensures used' == if OriginOf(f, c) == BySubscription then used + {c} else used
  {
    var channel := f.channels[c];
    out, used' := s, used;
    assert (if c in manualByChannel then Some(manualByChannel[c]) else None) == FirstUsable(f.rows, c);
    if c in f.readings {
      var reading := f.readings[c];
      var balance := if reading.inCurrency then reading.value else Convert(reading.value, f.unit);
      out := out.(total := out.total + balance, known := out.known + 1);
    } else if c in manualByChannel {
      var balance := manualByChannel[c].balance;
      out := out.(total := out.total + balance, manualTotal := out.manualTotal + balance, known := out.known + 1);
      used' := used + {c};
    } else if channel.points > 0.0 {
      out := out.(total := out.total + Convert(channel.points, f.unit), known := out.known + 1);
    } else {
      var key := if c in f.reasons then f.reasons[c] else "";
      if key == "" {
        key := NO_RECORD;
      }
      out := out.(unknown := out.unknown + 1,
                  reasons := out.reasons[key := (if key in out.reasons then out.reasons[key] else 0) + 1]);
    }
    out := out.(monthly := out.monthly + MonthlyRemaining(channel.monthlyQuota, channel.monthlyUsed));
  }

  /** Whether a row says that it was counted. */
  predicate Counted(f: Facts, r: Row) {
    Usable(r) && (r.channel == 0 || (r.channel in f.channels && OriginOf(f, r.channel) == BySubscription))
  }

  /** The summary of the channels in any order, and of the subscription rows. */
  method BalanceSummaryGet(f: Facts, order: seq<int>) returns (s: Summary)
    requires forall c :: c in order <==> c in f.channels
    ensures s.total == RowSum(order, All(), MoneyOf(f)) + RowSum(f.rows, Unbound(), BalanceOf())
    ensures s.manualTotal == RowSum(order, From(f, BySubscription), MoneyOf(f)) + RowSum(f.rows, Unbound(), BalanceOf())
    ensures s.known + s.unknown == |order| && s.known as real == RowSum(order, Read(f), One())
    ensures forall r :: (if r in s.reasons then s.reasons[r] else 0) as real == RowSum(order, UnreadFor(f, r), One())
    ensures SumOver(s.reasons.Keys, r => if r in s.reasons then s.reasons[r] as real else 0.0) == s.unknown as real
    ensures s.monthly == RowSum(order, All(), MonthlyOf(f))
    ensures s.expired as real == RowSum(f.rows, Expired(), One())
    ensures |s.counted| == |f.rows| && forall i :: 0 <= i < |f.rows| ==> s.counted[i] == Counted(f, f.rows[i])
  {
    s := Summary(0.0, 0.0, 0, 0, map[], 0.0, 0, []);
    var manualByChannel := ManualSubscriptionByChannel(f.rows);
    var manualUsed: set<int> := {};
    for k := 0 to |order|
      invariant SumsChannels(f, order[..k], s) && s.expired == 0 && s.counted == []
      invariant forall c :: c in manualUsed <==> c in order[..k] && OriginOf(f, c) == BySubscription
    {
      OneMore(order, k);
      assert order[k] in order;
      PlusSums(f, order[..k], s, order[k]);
      s, manualUsed := AddChannel(f, manualByChannel, s, order[k], manualUsed);
    }
    OneMore(order, |order|);
    ReasonsAddUp(f, order, s);
    KnownAndUnknown(f, order);
    s := AddRows(f, s, manualUsed);
  }

  /** The rows part of a summary over some rows. */
  ghost predicate SumsRows(f: Facts, rows: seq<Row>, s: Summary, out: Summary) {
    && out == s.(total := out.total, manualTotal := out.manualTotal, expired := out.expired, counted := out.counted)
    && out.total == s.total + RowSum(rows, Unbound(), BalanceOf())
    && out.manualTotal == s.manualTotal + RowSum(rows, Unbound(), BalanceOf())
    && out.expired as real == RowSum(rows, Expired(), One())
    && |out.counted| == |rows| && forall k :: 0 <= k < |rows| ==> out.counted[k] == Counted(f, rows[k])
  }

  function PlusRow(f: Facts, out: Summary, row: Row): Summary {
    var free := if Unbound()(row) then row.balance else 0.0;
    out.(total := out.total + free, manualTotal := out.manualTotal + free,
      expired := out.expired + (if row.expired then 1 else 0),
         counted := out.counted + [Counted(f, row)])
  }

  lemma PlusRowSums(f: Facts, rows: seq<Row>, s: Summary, out: Summary, row: Row)
    requires SumsRows(f, rows, s, out)
    ensures SumsRows(f, rows + [row], s, PlusRow(f, out, row))
  {
    RowSumSnoc(rows, row);
  }

  method AddRow(f: Facts, s: Summary, row: Row, manualUsed: set<int>) returns (out: Summary)
    requires forall c :: c in manualUsed <==> c in f.channels && OriginOf(f, c) == BySubscription
    ensures out == PlusRow(f, s, row)
  {
    out := s;
    if row.expired {
      out := out.(expired := out.expired + 1);
    }
    if !row.enabled || row.expired {
      out := out.(counted := out.counted + [false]);
    } else if row.channel != 0 {
      out := out.(counted := out.counted + [row.channel in manualUsed]);
    } else {
      out := out.(counted := out.counted + [true], total := out.total + row.balance,
        manualTotal := out.manualTotal + row.balance);
    }
  }

  method AddRows(f: Facts, s: Summary, manualUsed: set<int>) returns (out: Summary)
    requires s.expired == 0 && s.counted == []
    requires forall c :: c in manualUsed <==> c in f.channels && OriginOf(f, c) == BySubscription
    ensures SumsRows(f, f.rows, s, out)
  {
    out := s;
    for i := 0 to |f.rows|
      invariant SumsRows(f, f.rows[..i], s, out)
    {
      OneMore(f.rows, i);
      PlusRowSums(f, f.rows[..i], s, out, f.rows[i]);
      out := AddRow(f, out, f.rows[i], manualUsed);
    }
    OneMore(f.rows, |f.rows|);
  }

  lemma KnownAndUnknown(f: Facts, order: seq<int>)
    ensures RowSum(order, Read(f), One()) + RowSum(order, From(f, Unread), One()) == |order| as real
  {
    RowSumSplit(order, Read(f), From(f, Unread), All(), One());
    RowSumCount(order);
  }

  /** The reasons account for every channel without a reading, each once. */
  lemma ReasonsAddUp(f: Facts, order: seq<int>, s: Summary)
    requires SumsChannels(f, order, s)
    ensures SumOver(s.reasons.Keys, r => if r in s.reasons then s.reasons[r] as real else 0.0) ==
      RowSum(order, From(f, Unread), One())
  {
    var keys, reason := s.reasons.Keys, (c: int) => ReasonOf(f, c);
    forall c | c in order && From(f, Unread)(c) ensures reason(c) in keys {
      AtLeastOne(order, UnreadFor(f, reason(c)), c);
    }
    GroupsPartition(order, From(f, Unread), reason, keys, One());
    forall r | r in keys
      ensures (if r in s.reasons then s.reasons[r] as real else 0.0) ==
        RowSum(order, And(From(f, Unread), KeyIs(reason, r)), One())
    {
      RowSumEqual(order, UnreadFor(f, r), And(From(f, Unread), KeyIs(reason, r)), One());
    }
    SumOverEqual(keys, r => if r in s.reasons then s.reasons[r] as real else 0.0,
                 r => RowSum(order, And(From(f, Unread), KeyIs(reason, r)), One()));
  }

  lemma {:induction false} AtLeastOne(order: seq<int>, p: int -> bool, c: int)
    requires c in order && p(c)
    ensures RowSum(order, p, One()) >= 1.0
  {
    var init := order[..|order| - 1];
    NotNegative(init, p);
    if order[|order| - 1] != c {
      AtLeastOne(init, p, c);
    }
  }

  lemma {:induction false} NotNegative(order: seq<int>, p: int -> bool)
    ensures RowSum(order, p, One()) >= 0.0
  {
    if order != [] {
      NotNegative(order[..|order| - 1], p);
    }
  }

  /** The sum over the channels does not depend on the order they come in. */
  lemma {:induction false} TotalIgnoresOrder(order: seq<int>, f: int -> real)
    requires NoRepeat(order)
    ensures RowSum(order, All(), f) == SumOver((set c | c in order), f)
  {
    if order != [] {
      var init, last := order[..|order| - 1], order[|order| - 1];
      TotalIgnoresOrder(init, f);
      var all := set c | c in order;
      assert all - {last} == set c | c in init;
      SumOverRemove(all, last, f);
    }
  }

  // ---------- What the mark on a row is worth ----------

  /** A row whose balance is in the total: an unbound one, or the one its channel is paid from. */
  ghost predicate Entered(f: Facts, i: nat) {
    && i < |f.rows| && Usable(f.rows[i])
    && (f.rows[i].channel == 0 ||
        (f.rows[i].channel in f.channels && OriginOf(f, f.rows[i].channel) == BySubscription
          && IsFirst(f.rows, f.rows[i].channel, i)))
  }

  predicate TwoUsable(f: Facts, i: int, j: int) {
    && 0 <= i < j < |f.rows| && Usable(f.rows[i]) && Usable(f.rows[j])
    && f.rows[i].channel == f.rows[j].channel && f.rows[i].channel in f.channels && f.rows[i].channel != 0
    && OriginOf(f, f.rows[i].channel) == BySubscription
  }

  /** The mark says which rows are in the total exactly when no channel that is paid from a subscription
      has two usable ones: the second is marked like the first, and is in no sum. */
  lemma MarkedExactlyIfEntered(f: Facts)
    ensures (forall i: nat :: i < |f.rows| ==> (Counted(f, f.rows[i]) <==> Entered(f, i))) <==>
      (forall i, j :: !TwoUsable(f, i, j))
  {
    if forall i, j :: !TwoUsable(f, i, j) {
      forall i: nat | i < |f.rows| ensures Counted(f, f.rows[i]) <==> Entered(f, i) {
        if Counted(f, f.rows[i]) && f.rows[i].channel != 0 {
          forall k | 0 <= k < i && f.rows[k].channel == f.rows[i].channel ensures !Usable(f.rows[k]) {
            assert !TwoUsable(f, k, i);
          }
        }
      }
    } else {
      var i, j :| TwoUsable(f, i, j);
      assert Counted(f, f.rows[j]) && !Entered(f, j);
    }
  }

  /** Channel 1 is paid from its first subscription; the second one is marked as counted and is in no sum. */
  lemma SecondIsMarkedToo(points: real, more: real)
    ensures var f := Facts(map[1 := Channel(0.0, 0.0, 0.0)], map[], map[],
                           [Row(1, 1, true, false, points), Row(2, 1, true, false, more)], 1.0);
      Counted(f, f.rows[1]) && !Entered(f, 1) && Money(f, 1) == points
  {
    var first, second := Row(1, 1, true, false, points), Row(2, 1, true, false, more);
    var f := Facts(map[1 := Channel(0.0, 0.0, 0.0)], map[], map[], [first, second], 1.0);
    assert f.rows[..1] == [first] && [first][..0] == [];
    assert FirstUsable([first], 1) == Some(first);
    assert FirstUsable(f.rows, 1) == Some(first);
    assert !IsFirst(f.rows, 1, 1) by { assert f.rows[0].channel == 1; }
  }
}
