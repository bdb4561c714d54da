/** Per-key rate limits over a sliding window of one minute, kept in memory.

    Each key has a window: two parallel lists that are compacted in place whenever they are
    touched. The ghost history of a window holds every event ever recorded in it; the list is proved
    to answer every question about the last minute as that full history would. */
module RateLimit {
  import opened Common

  const SPAN: int := 60_000  // milliseconds

  datatype Event = Event(at: int, used: int)

  /** The events that are less than one span old. */
  function Live(events: seq<Event>, now: int): seq<Event> {
    if events == [] then []
    else Live(events[..|events| - 1], now) +
         if now - events[|events| - 1].at < SPAN then [events[|events| - 1]] else []
  }

  function Total(events: seq<Event>): int {
    if events == [] then 0 else Total(events[..|events| - 1]) + events[|events| - 1].used
  }

  /** Nothing was recorded later than now. */
  ghost predicate InTime(events: seq<Event>, now: int) { forall i :: 0 <= i < |events| ==> events[i].at <= now }

  function Zip(stamps: seq<int>, used: seq<int>): seq<Event>
    requires |stamps| == |used|
  {
    seq(|stamps|, i requires 0 <= i < |stamps| => Event(stamps[i], used[i]))
  }

  // ---------- Filtering twice is filtering once ----------

  lemma {:induction false} LiveSnoc(events: seq<Event>, e: Event, now: int)
    ensures Live(events + [e], now) == Live(events, now) + if now - e.at < SPAN then [e] else []
    ensures Total(events + [e]) == Total(events) + e.used
  {
    assert (events + [e])[..|events|] == events;
  }

  /** One more event, seen from the whole list. */
  lemma LivePrefix(all: seq<Event>, i: nat, now: int)
    requires i < |all|
    ensures now - all[i].at < SPAN ==>
      && Live(all[..i + 1], now) == Live(all[..i], now) + [all[i]]
      && Total(Live(all[..i + 1], now)) == Total(Live(all[..i], now)) + all[i].used
    ensures now - all[i].at >= SPAN ==> Live(all[..i + 1], now) == Live(all[..i], now)
  {
    assert all[..i + 1] == all[..i] + [all[i]];
    LiveSnoc(all[..i], all[i], now);
    LiveSnoc(Live(all[..i], now), all[i], now);
  }

  /** What was dropped earlier would be dropped now. */
  lemma {:induction false} LiveOfLive(events: seq<Event>, earlier: int, now: int)
    requires earlier <= now
    ensures Live(Live(events, earlier), now) == Live(events, now)
  {
    if events != [] {
      var init, e := events[..|events| - 1], events[|events| - 1];
      LiveOfLive(init, earlier, now);
      LiveSnoc(Live(init, earlier), e, now);
      assert Live(init, earlier) + [] == Live(init, earlier);
      assert Live(init, now) + [] == Live(init, now);
    }
  }

  /** The first `n` places of the lists hold what is live among the first `i` events, `total` is what
      that adds up to, and the places from `i` on are untouched. */
  ghost predicate Packed(stamps: seq<int>, used: seq<int>, n: nat, total: int, all: seq<Event>, i: nat, now: int) {
    && n <= i <= |all| == |stamps| == |used|
    && Zip(stamps[..n], used[..n]) == Live(all[..i], now) && total == Total(Live(all[..i], now))
    && (forall k :: i <= k < |all| ==> Event(stamps[k], used[k]) == all[k])
  }

  /** Writing place `n` lengthens what is packed there by one event. */
  lemma ZipPut(stamps: seq<int>, used: seq<int>, n: nat, e: Event)
    requires n < |stamps| == |used|
    ensures Zip(stamps[n := e.at][..n + 1], used[n := e.used][..n + 1]) == Zip(stamps[..n], used[..n]) + [e]
  {
    PutThenTake(stamps, n, e.at);
    PutThenTake(used, n, e.used);
    ZipSnoc(stamps[..n], used[..n], e);
  }

  lemma PutThenTake(s: seq<int>, n: nat, x: int)
    requires n < |s|
    ensures s[n := x][..n + 1] == s[..n] + [x]
  {
  }

  lemma ZipSnoc(stamps: seq<int>, used: seq<int>, e: Event)
    requires |stamps| == |used|
    ensures Zip(stamps + [e.at], used + [e.used]) == Zip(stamps, used) + [e]
  {
    var z := Zip(stamps + [e.at], used + [e.used]);
    assert |z| == |stamps| + 1;
    forall k | 0 <= k < |z| ensures z[k] == (Zip(stamps, used) + [e])[k] {
    }
  }

  lemma PackKeep(stamps: seq<int>, used: seq<int>, n: nat, total: int, all: seq<Event>, i: nat, now: int)
    requires Packed(stamps, used, n, total, all, i, now) && i < |all| && now - stamps[i] < SPAN
    ensures Packed(stamps[n := stamps[i]], used[n := used[i]], n + 1, total + used[i], all, i + 1, now)
  {
    assert all[i] == Event(stamps[i], used[i]);
    LivePrefix(all, i, now);
    ZipPut(stamps, used, n, all[i]);
    RestUntouched(stamps, used, n, all, i);
  }

  lemma RestUntouched(stamps: seq<int>, used: seq<int>, n: nat, all: seq<Event>, i: nat)
    requires n <= i < |all| == |stamps| == |used|
    requires forall k :: i <= k < |all| ==> Event(stamps[k], used[k]) == all[k]
    ensures var s, u := stamps[n := stamps[i]], used[n := used[i]];
      forall k :: i + 1 <= k < |all| ==> Event(s[k], u[k]) == all[k]
  {
  }

  lemma PackDrop(stamps: seq<int>, used: seq<int>, n: nat, total: int, all: seq<Event>, i: nat, now: int)
    requires Packed(stamps, used, n, total, all, i, now) && i < |all| && now - stamps[i] >= SPAN
    ensures Packed(stamps, used, n, total, all, i + 1, now)
  {
    assert all[i] == Event(stamps[i], used[i]);
    LivePrefix(all, i, now);
  }

  // ---------- One window ----------

  class RateWindow {
    var stamps: seq<int>
    var used: seq<int>
    ghost var history: seq<Event>  // everything ever recorded
    ghost var touchedAt: int       // time of the last eviction
    ghost const key: int           // whose window it is

    ghost predicate Valid()
      reads this
    {
      |stamps| == |used| && Zip(stamps, used) == Live(history, touchedAt) && InTime(history, touchedAt)
    }

    constructor (ghost key: int, ghost now: int)
      ensures Valid() && history == [] && touchedAt == now && this.key == key
    {
      stamps, used, history, touchedAt := [], [], [], now;
      this.key := key;
    }

    /** Moves the live entries to the front of both lists and returns what they add up to, and
        how many they are. The rest of the lists is left over. */
    method Compact(now: int) returns (total: int, n: nat)
      requires |stamps| == |used|
      modifies `stamps, `used
      ensures |stamps| == |used| && n <= |stamps|
      ensures Zip(stamps[..n], used[..n]) == Live(Zip(old(stamps), old(used)), now)
      ensures total == Total(Live(Zip(old(stamps), old(used)), now))
    {
      total, n := 0, 0;
      ghost var all := Zip(stamps, used);
      for i := 0 to |stamps|
        invariant Packed(stamps, used, n, total, all, i, now)
      {
        if now - stamps[i] < SPAN {
          PackKeep(stamps, used, n, total, all, i, now);
          stamps := stamps[n := stamps[i]];
          used := used[n := used[i]];
          total := total + used[n];
          n := n + 1;
        } else {
          PackDrop(stamps, used, n, total, all, i, now);
        }
      }
      assert all[..|all|] == all;
    }

    /** Evicts what is a span old or older and appends one event. */
    method Record(now: int, amount: int, n: nat)
      requires |stamps| == |used| && n <= |stamps|
      requires Zip(stamps[..n], used[..n]) == Live(history, now) && InTime(history, now)
      modifies this
      ensures Valid() && touchedAt == now && history == old(history) + [Event(now, amount)]
    {
      ghost var kept := Zip(stamps[..n], used[..n]);
      stamps := stamps[..n] + [now];
      used := used[..n] + [amount];
      assert Zip(stamps, used) == kept + [Event(now, amount)];
      LiveSnoc(history, Event(now, amount), now);
      history := history + [Event(now, amount)];
      touchedAt := now;
    }

    method Truncate(now: int, n: nat)
      requires |stamps| == |used| && n <= |stamps|
      requires Zip(stamps[..n], used[..n]) == Live(history, now) && InTime(history, now)
      modifies this
      ensures Valid() && touchedAt == now && history == old(history)
    {
      stamps := stamps[..n];
      used := used[..n];
      touchedAt := now;
    }

    method Admit(limit: int, now: int) returns (ok: bool)
      requires Valid() && touchedAt <= now && limit > 0
      modifies this
      ensures Valid() && touchedAt == now
      ensures ok == Admits(old(history), limit, now)
      ensures history == if ok then old(history) + [Event(now, 1)] else old(history)
    {
      LiveOfLive(history, touchedAt, now);
      var total, n := Compact(now);
      if total + 1 <= limit {
        Record(now, 1, n);
        return true;
      }
      Truncate(now, n);
      return false;
    }

    method Add(amount: int, now: int) returns (total: int)
      requires Valid() && touchedAt <= now
      modifies this
      ensures Valid() && touchedAt == now
      ensures history == old(history) + [Event(now, amount)]
      ensures total == Total(Live(history, now))
    {
      LiveOfLive(history, touchedAt, now);
      LiveSnoc(history, Event(now, amount), now);
      LiveSnoc(Live(history, now), Event(now, amount), now);
      var n;
      total, n := Compact(now);
      Record(now, amount, n);
      total := total + amount;
    }

    method Below(limit: int, now: int) returns (ok: bool)
      requires Valid() && touchedAt <= now
      modifies this
      ensures Valid() && touchedAt == now && history == old(history)
      ensures ok <==> Total(Live(history, now)) < limit
    {
      LiveOfLive(history, touchedAt, now);
      var total, n := Compact(now);
      Truncate(now, n);
      return total < limit;
    }
  }

  // ---------- All keys ----------

  /** Whether one more request fits below the limit, given every request recorded so far. */
  predicate Admits(history: seq<Event>, limit: int, now: int) {
    limit <= 0 || Total(Live(history, now)) + 1 <= limit
  }

  // What calls for one key come to; the store below is proved to do just that.

  datatype Call = Call(at: int, limit: int)

  /** The history of one key after a run of calls, starting from nothing. */
  function Run(calls: seq<Call>): seq<Event> {
    if calls == [] then []
    else
      var h, c := Run(calls[..|calls| - 1]), calls[|calls| - 1];
      if c.limit > 0 && Admits(h, c.limit, c.at) then h + [Event(c.at, 1)] else h
  }

  /** Call `i` is answered by what was let through before it. */
  predicate AnsweredAt(calls: seq<Call>, i: nat, ok: bool) {
    i < |calls| && ok == Admits(Run(calls[..i]), calls[i].limit, calls[i].at)
  }

  /** The first `n` calls are. */
  ghost predicate Answered(calls: seq<Call>, n: nat, oks: seq<bool>) {
    |oks| == n <= |calls| && forall i :: 0 <= i < n ==> AnsweredAt(calls, i, oks[i])
  }

  lemma AnsweredSnoc(calls: seq<Call>, n: nat, oks: seq<bool>, ok: bool)
    requires Answered(calls, n, oks) && AnsweredAt(calls, n, ok)
    ensures Answered(calls, n + 1, oks + [ok])
  {
    forall i | 0 <= i < n + 1 ensures AnsweredAt(calls, i, (oks + [ok])[i]) {
      assert i < n ==> AnsweredAt(calls, i, oks[i]);
    }
  }

  /** One more call: `h` was recorded before it, `next` is recorded after it. */
  lemma RunStep(calls: seq<Call>, i: nat, h: seq<Event>, ok: bool, next: seq<Event>)
    requires i < |calls| && h == Run(calls[..i]) && ok == Admits(h, calls[i].limit, calls[i].at)
    requires next == if ok && calls[i].limit > 0 then h + [Event(calls[i].at, 1)] else h
    ensures next == Run(calls[..i + 1]) && AnsweredAt(calls, i, ok)
  {
    assert calls[..i + 1][..i] == calls[..i];
  }

  ghost predicate InOrder(calls: seq<Call>) {
    forall i, j :: 0 <= i <= j < |calls| ==> calls[i].at <= calls[j].at
  }

  /** The windows of all keys: one such store counts requests, another one tokens. */
  class WindowStore {
    var windows: map<int, RateWindow>
    ghost var Repr: set<RateWindow>
    ghost var clock: int

    ghost predicate Valid()
      reads this, Repr
    {
      && (forall k :: k in windows ==> windows[k] in Repr && windows[k].key == k && windows[k].touchedAt <= clock)
      && (forall k {:trigger windows[k].Valid()} :: k in windows ==> windows[k].Valid())
    }

    /** Everything ever recorded for a key. */
    ghost function History(key: int): seq<Event>
      requires Valid()
      reads this, Repr
    {
      if key in windows then windows[key].history else []
    }

    constructor ()
      ensures Valid() && clock == 0 && windows == map[] && Repr == {}
    {
      windows, Repr, clock := map[], {}, 0;
    }

    /** A key gets its window when it is asked for the first time. */
    method EnsureWindow(key: int)
      requires Valid()
      modifies `windows, `Repr
      ensures Valid() && windows.Keys == old(windows).Keys + {key} && fresh(Repr - old(Repr))
      ensures forall k :: History(k) == old(History(k))
    {
      if key !in windows {
        var w := new RateWindow(key, clock);
        windows, Repr := windows[key := w], Repr + {w};
      }
    }

    /** A request is let through exactly when the requests let through in the last span stay below
        the limit; it is recorded only then. A limit of zero or less lets everything through and
        records nothing. */
    method AllowRate(key: int, limit: int, now: int) returns (ok: bool)
      requires Valid() && clock <= now
      modifies this, Repr
      ensures Valid() && fresh(Repr - old(Repr)) && clock == now
      ensures ok == Admits(old(History(key)), limit, now)
      ensures History(key) == if ok && limit > 0 then old(History(key)) + [Event(now, 1)] else old(History(key))
      ensures forall k :: k != key ==> History(k) == old(History(k))
    {
      clock := now;
      if limit <= 0 {
        return true;
      }
      EnsureWindow(key);
      ok := AdmitIn(key, limit, now);
    }

    /** The same for a key that has its window. */
    method AdmitIn(key: int, limit: int, now: int) returns (ok: bool)
      requires Valid() && key in windows && clock == now && limit > 0
      modifies windows[key]
      ensures Valid() && ok == Admits(old(History(key)), limit, now)
      ensures History(key) == if ok then old(History(key)) + [Event(now, 1)] else old(History(key))
      ensures forall k :: k != key ==> History(k) == old(History(k))
    {
      ok := windows[key].Admit(limit, now);
    }

    /** The first `i` calls are done. */
    ghost predicate RanTo(key: int, calls: seq<Call>, i: nat, oks: seq<bool>)
      reads this, Repr
    {
      && i <= |calls| && Valid() && History(key) == Run(calls[..i]) && Answered(calls, i, oks)
      && (i < |calls| ==> clock <= calls[i].at)
    }

    method AllowNext(key: int, calls: seq<Call>, i: nat, oks: seq<bool>) returns (more: seq<bool>)
      requires i < |calls| && InOrder(calls) && RanTo(key, calls, i, oks)
      modifies this, Repr
      ensures RanTo(key, calls, i + 1, more) && fresh(Repr - old(Repr))
      ensures forall k :: k != key ==> History(k) == old(History(k))
    {
      ghost var h := History(key);
      var ok := AllowRate(key, calls[i].limit, calls[i].at);
      RunStep(calls, i, h, ok, History(key));
      AnsweredSnoc(calls, i, oks, ok);
      more := oks + [ok];
    }

    /** A key that starts from nothing has the history of the run when the calls are done. */
    method AllowAll(key: int, calls: seq<Call>) returns (oks: seq<bool>)
      requires Valid() && History(key) == [] && InOrder(calls) && (calls != [] ==> clock <= calls[0].at)
      modifies this, Repr
      ensures Valid() && fresh(Repr - old(Repr)) && History(key) == Run(calls) && Answered(calls, |calls|, oks)
      ensures forall k :: k != key ==> History(k) == old(History(k))
    {
      oks := [];
      for i := 0 to |calls|
        invariant RanTo(key, calls, i, oks) && fresh(Repr - old(Repr))
        invariant forall k :: k != key ==> History(k) == old(History(k))
      {
        oks := AllowNext(key, calls, i, oks);
      }
      OneMore(calls, |calls|);
    }

    /** Records the tokens of a finished request, at least one; keys without an id are ignored. */
    method RecordKeyUsage(key: int, tokens: int, now: int)
      requires Valid() && clock <= now
      modifies this, Repr
      ensures Valid() && fresh(Repr - old(Repr)) && clock == now
      ensures History(key) ==
        if key > 0 then old(History(key)) + [Event(now, if tokens <= 0 then 1 else tokens)] else old(History(key))
      ensures forall k :: k != key ==> History(k) == old(History(k))
    {
      clock := now;
      if key <= 0 {
        return;
      }
      EnsureWindow(key);
      AddIn(key, if tokens <= 0 then 1 else tokens, now);
    }

    /** The same for a key that has its window. */
    method AddIn(key: int, amount: int, now: int)
      requires Valid() && key in windows && clock == now
      modifies windows[key]
      ensures Valid() && History(key) == old(History(key)) + [Event(now, amount)]
      ensures forall k :: k != key ==> History(k) == old(History(k))
    {
      var _ := windows[key].Add(amount, now);
    }

    /** A key may start a request exactly when the tokens recorded for it in the last span add up to
        less than the limit. */
    method AllowKeyTPM(key: int, limit: int, now: int) returns (ok: bool)
      requires Valid() && clock <= now
      modifies this, Repr
      ensures Valid() && windows == old(windows) && clock == now
      ensures ok <==> limit <= 0 || Total(Live(History(key), now)) < limit
      ensures ok <==> limit <= 0 || TokensIn(History(key), now - SPAN + 1) < limit
      ensures forall k :: History(k) == old(History(k))
    {
      clock := now;
      if limit <= 0 {
        return true;
      }
      if key !in windows {
        return true;
      }
      ok := BelowIn(key, limit, now);
      TokensOf(key, now);
    }

    /** The same for a key that has its window. */
    method BelowIn(key: int, limit: int, now: int) returns (ok: bool)
      requires Valid() && key in windows && clock == now
      modifies windows[key]
      ensures Valid() && (ok <==> Total(Live(History(key), now)) < limit)
      ensures forall k :: History(k) == old(History(k))
    {
      ok := windows[key].Below(limit, now);
    }

    /** What is live for a key, by the times of what was recorded. */
    lemma TokensOf(key: int, now: int)
      requires Valid() && clock <= now
      ensures Total(Live(History(key), now)) == TokensIn(History(key), now - SPAN + 1)
    {
      if key in windows {
        assert windows[key].Valid();
      }
      LiveTokensExactly(History(key), now);
    }
  }

  // ---------- Runs ----------

  /** The number of requests let through in the half-open window of one span from `start`. */
  function InWindow(events: seq<Event>, start: int): nat {
    if events == [] then 0
    else InWindow(events[..|events| - 1], start) + if start <= events[|events| - 1].at < start + SPAN then 1 else 0
  }

  lemma {:induction false} RunFacts(calls: seq<Call>, now: int)
    requires forall i :: 0 <= i < |calls| ==> calls[i].at <= now
    ensures forall i :: 0 <= i < |Run(calls)| ==> Run(calls)[i].used == 1 && Run(calls)[i].at <= now
  {
    if calls != [] {
      RunFacts(calls[..|calls| - 1], now);
    }
  }

  lemma InWindowSnoc(events: seq<Event>, e: Event, start: int)
    ensures InWindow(events + [e], start) == InWindow(events, start) + if start <= e.at < start + SPAN then 1 else 0
  {
    assert (events + [e])[..|events|] == events;
  }

  /** A window that is still open at `now` holds no more than what is live at `now`. */
  lemma {:induction false} WindowWithinLive(events: seq<Event>, start: int, now: int)
    requires forall i :: 0 <= i < |events| ==> events[i].used == 1 && events[i].at <= now
    requires now < start + SPAN
    ensures InWindow(events, start) <= Total(Live(events, now))
  {
    if events != [] {
      var init, e := events[..|events| - 1], events[|events| - 1];
      WindowWithinLive(init, start, now);
      LiveSnoc(Live(init, now), e, now);
      assert Live(init, now) + [] == Live(init, now);
    }
  }

  /** Over every run whose clock does not go back, no window of one span holds more recorded requests
      than the largest limit of the run. */
  lemma {:induction false} NoWindowRecordsMore(calls: seq<Call>, limit: nat, start: int)
    requires InOrder(calls)
    requires forall i :: 0 <= i < |calls| ==> calls[i].limit <= limit
    ensures InWindow(Run(calls), start) <= limit
  {
    if calls != [] {
      var before, c := calls[..|calls| - 1], calls[|calls| - 1];
      NoWindowRecordsMore(before, limit, start);
      var h := Run(before);
      if c.limit > 0 && Admits(h, c.limit, c.at) {
        InWindowSnoc(h, Event(c.at, 1), start);
        if start <= c.at < start + SPAN {
          RunFacts(before, c.at);
          WindowWithinLive(h, start, c.at);
        }
      } else {
        assert Run(calls) == h;
      }
    }
  }

  /** How many calls under a limit were let through in the window of one span from `start`. */
  function LetThrough(calls: seq<Call>, oks: seq<bool>, start: int): nat
    requires |oks| == |calls|
  {
    if calls == [] then 0
    else
      var n := |calls| - 1;
      LetThrough(calls[..n], oks[..n], start)
      + if oks[n] && calls[n].limit > 0 && start <= calls[n].at < start + SPAN then 1 else 0
  }

  lemma AnsweredPrefix(calls: seq<Call>, oks: seq<bool>, i: nat)
    requires Answered(calls, |calls|, oks) && i <= |calls|
    ensures Answered(calls[..i], i, oks[..i])
  {
    forall k | 0 <= k < i ensures AnsweredAt(calls[..i], k, oks[..i][k]) {
      assert AnsweredAt(calls, k, oks[k]) && calls[..i][..k] == calls[..k];
    }
  }

  /** Those are the ones that are recorded. */
  lemma {:induction false} LetThroughIsRecorded(calls: seq<Call>, oks: seq<bool>, start: int)
    requires Answered(calls, |calls|, oks)
    ensures LetThrough(calls, oks, start) == InWindow(Run(calls), start)
  {
    if calls != [] {
      var n := |calls| - 1;
      assert AnsweredAt(calls, n, oks[n]);
      AnsweredPrefix(calls, oks, n);
      LetThroughIsRecorded(calls[..n], oks[..n], start);
      InWindowSnoc(Run(calls[..n]), Event(calls[n].at, 1), start);
    }
  }

  /** Over every run whose clock does not go back, no window of one span lets through more calls under a
      limit than the largest limit of the run. Calls without one are not counted. */
  lemma NoWindowAboveLimit(calls: seq<Call>, oks: seq<bool>, limit: nat, start: int)
    requires InOrder(calls) && Answered(calls, |calls|, oks)
    requires forall i :: 0 <= i < |calls| ==> calls[i].limit <= limit
    ensures LetThrough(calls, oks, start) <= limit
  {
    LetThroughIsRecorded(calls, oks, start);
    NoWindowRecordsMore(calls, limit, start);
  }

  /** Up to the time of the last event, what is live is what lies in the window that ends there. */
  lemma {:induction false} LiveIsWindow(events: seq<Event>, now: int)
    requires forall i :: 0 <= i < |events| ==> events[i].used == 1 && events[i].at <= now
    ensures Total(Live(events, now)) == InWindow(events, now - SPAN + 1)
  {
    if events != [] {
      var init, e := events[..|events| - 1], events[|events| - 1];
      LiveIsWindow(init, now);
      LiveSnoc(Live(init, now), e, now);
      assert Live(init, now) + [] == Live(init, now);
    }
  }

  /** Call `i` is let through exactly when it has no limit, or fewer calls under a limit than its own
      limit were let through in the span that ends with it. */
  ghost predicate DecidedByWindow(calls: seq<Call>, oks: seq<bool>, i: nat)
    requires |oks| == |calls| && i < |calls|
  {
    oks[i] <==> calls[i].limit <= 0 || LetThrough(calls[..i], oks[..i], calls[i].at - SPAN + 1) < calls[i].limit
  }

  lemma LiveCountsLetThrough(calls: seq<Call>, oks: seq<bool>, now: int)
    requires Answered(calls, |calls|, oks) && forall i :: 0 <= i < |calls| ==> calls[i].at <= now
    ensures Total(Live(Run(calls), now)) == LetThrough(calls, oks, now - SPAN + 1)
  {
    LetThroughIsRecorded(calls, oks, now - SPAN + 1);
    RunFacts(calls, now);
    LiveIsWindow(Run(calls), now);
  }

  lemma DecidedAt(calls: seq<Call>, oks: seq<bool>, i: nat)
    requires InOrder(calls) && Answered(calls, |calls|, oks) && i < |calls|
    ensures DecidedByWindow(calls, oks, i)
  {
    assert AnsweredAt(calls, i, oks[i]);
    AnsweredPrefix(calls, oks, i);
    forall k | 0 <= k < i ensures calls[..i][k].at <= calls[i].at {
      assert calls[..i][k] == calls[k];
    }
    LiveCountsLetThrough(calls[..i], oks[..i], calls[i].at);
  }

  /** The answers of a run, told by the calls and the answers before: neither too late nor too early. */
  lemma RefusedExactlyWhenFull(calls: seq<Call>, oks: seq<bool>)
    requires InOrder(calls) && Answered(calls, |calls|, oks)
    ensures forall i :: 0 <= i < |calls| ==> DecidedByWindow(calls, oks, i)
  {
    forall i | 0 <= i < |calls| ensures DecidedByWindow(calls, oks, i) {
      DecidedAt(calls, oks, i);
    }
  }

  /** The tokens recorded in the half-open window of one span from `start`. */
  function TokensIn(events: seq<Event>, start: int): int {
    if events == [] then 0
    else
      var n := |events| - 1;
      TokensIn(events[..n], start) + if start <= events[n].at < start + SPAN then events[n].used else 0
  }

  /** What a token limit is compared with: all that was recorded in the span that ends now. */
  lemma {:induction false} LiveTokensExactly(events: seq<Event>, now: int)
    requires InTime(events, now)
    ensures Total(Live(events, now)) == TokensIn(events, now - SPAN + 1)
  {
    if events != [] {
      var init, e := events[..|events| - 1], events[|events| - 1];
      LiveTokensExactly(init, now);
      LiveSnoc(Live(init, now), e, now);
      assert Live(init, now) + [] == Live(init, now);
    }
  }

  /** Evicting as of one time is invisible at another exactly when the clock has not gone back. */
  lemma EvictionInvisibleExactlyForward(earlier: int, now: int)
    ensures (forall events :: Live(Live(events, earlier), now) == Live(events, now)) <==> earlier <= now
  {
    if earlier <= now {
      forall events ensures Live(Live(events, earlier), now) == Live(events, now) {
        LiveOfLive(events, earlier, now);
      }
    } else {
      var e := Event(earlier - SPAN, 1);
      LiveSnoc([], e, earlier);
      LiveSnoc([], e, now);
      assert [] + [e] == [e];
      assert Live(Live([e], earlier), now) != Live([e], now);
    }
  }
}
