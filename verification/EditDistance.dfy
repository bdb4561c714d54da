/** The bounded edit distance behind the "did you mean" suggestions for group names.

    The reference is the cost of a cheapest edit script, read left to right. `Prefix` is the
    usual recursion on prefixes; the two-row loop is proved against it, and it is proved to be
    the cost of a cheapest script. */
module EditDistance {

  // ---------- Edit scripts: the independent reference ----------

  datatype Edit = Keep | Insert(c: char) | Delete | Replace(c: char)

  /** The edits of a text in order, the last one outermost. */
  datatype Script = Start | Then(before: Script, last: Edit)

  /** The lengths of the two texts before the edit `last`, given those after it. */
  function Before(last: Edit, i: int, j: int): (int, int) {
    (i - (if last.Insert? then 0 else 1), j - (if last.Delete? then 0 else 1))
  }

  /** The script consumes exactly `a` and produces exactly `b`. */
  predicate Rewrites(s: Script, a: string, b: string) {
    match s
    case Start => a == "" && b == ""
    case Then(before, last) =>
      var (i, j) := Before(last, |a|, |b|);
      && i >= 0 && j >= 0
      && (last.Keep? ==> a[i] == b[j])
      && (last.Insert? || last.Replace? ==> b[j] == last.c)
      && Rewrites(before, a[..i], b[..j])
  }

  /** Every edit costs one, keeping a byte is free. */
  function Cost(s: Script): nat {
    match s
    case Start => 0
    case Then(before, last) => Cost(before) + if last.Keep? then 0 else 1
  }

  // ---------- The recursion on prefixes ----------

  function Min(x: nat, y: nat): nat { if y < x then y else x }

  /** Distance between the first `i` bytes of `a` and the first `j` bytes of `b`. */
  function Prefix(a: string, b: string, i: nat, j: nat): nat
    requires i <= |a| && j <= |b|
  {
    if i == 0 then j
    else if j == 0 then i
    else
      var cost := if a[i - 1] == b[j - 1] then 0 else 1;
      Min(Min(Prefix(a, b, i - 1, j - 1) + cost, Prefix(a, b, i - 1, j) + 1), Prefix(a, b, i, j - 1) + 1)
  }

  function Distance(a: string, b: string): nat { Prefix(a, b, |a|, |b|) }

  // ---------- Prefix is the cost of a cheapest script ----------

  /** An edit that accounts for the table entry (i, j). */
  lemma LastEdit(a: string, b: string, i: nat, j: nat) returns (last: Edit)
    requires i <= |a| && j <= |b| && i + j > 0
    ensures var (i', j') := Before(last, i, j);
      && i' >= 0 && j' >= 0
      && (last.Keep? ==> a[i'] == b[j'])
      && (last.Insert? || last.Replace? ==> b[j'] == last.c)
      && Prefix(a, b, i, j) == Prefix(a, b, i', j') + if last.Keep? then 0 else 1
  {
    if i > 0 && j > 0 && Prefix(a, b, i, j) == Prefix(a, b, i - 1, j - 1) + (if a[i - 1] == b[j - 1] then 0 else 1) {
      last := if a[i - 1] == b[j - 1] then Keep else Replace(b[j - 1]);
    } else if i > 0 && (j == 0 || Prefix(a, b, i, j) == Prefix(a, b, i - 1, j) + 1) {
      last := Delete;
    } else {
      last := Insert(b[j - 1]);
    }
  }

  /** Some script from the one prefix to the other costs exactly `Prefix`. */
  lemma {:induction false} CheapestScript(a: string, b: string, i: nat, j: nat) returns (s: Script)
    requires i <= |a| && j <= |b|
    ensures Rewrites(s, a[..i], b[..j]) && Cost(s) == Prefix(a, b, i, j)
    decreases i + j
  {
    if i == 0 && j == 0 {
      return Start;
    }
    var last := LastEdit(a, b, i, j);
    var (i', j') := Before(last, i, j);
    var before := CheapestScript(a, b, i', j');
    assert a[..i][..i'] == a[..i'] && b[..j][..j'] == b[..j'];
    s := Then(before, last);
  }

  /** No script from the one prefix to the other costs less. */
  lemma {:induction false} NoCheaperScript(a: string, b: string, i: nat, j: nat, s: Script)
    requires i <= |a| && j <= |b|
    requires Rewrites(s, a[..i], b[..j])
    ensures Cost(s) >= Prefix(a, b, i, j)
  {
    match s
    case Start =>
    case Then(before, last) =>
      var (i', j') := Before(last, i, j);
      assert a[..i][..i'] == a[..i'] && b[..j][..j'] == b[..j'];
      NoCheaperScript(a, b, i', j', before);
  }

  /** `Distance` is the cost of a cheapest script from `a` to `b`. */
  lemma DistanceIsCheapest(a: string, b: string)
    ensures exists s :: Rewrites(s, a, b) && Cost(s) == Distance(a, b)
    ensures forall s :: Rewrites(s, a, b) ==> Cost(s) >= Distance(a, b)
  {
    assert a[..|a|] == a && b[..|b|] == b;
    var s := CheapestScript(a, b, |a|, |b|);
    forall s | Rewrites(s, a, b) ensures Cost(s) >= Distance(a, b) {
      NoCheaperScript(a, b, |a|, |b|, s);
    }
  }

  // ---------- What the early exits rely on ----------

  /** The difference in length is a lower bound. */
  lemma {:induction false} LengthGap(a: string, b: string, i: nat, j: nat)
    requires i <= |a| && j <= |b|
    ensures Prefix(a, b, i, j) >= i - j && Prefix(a, b, i, j) >= j - i
  {
    if i > 0 && j > 0 {
      LengthGap(a, b, i - 1, j - 1);
      LengthGap(a, b, i - 1, j);
      LengthGap(a, b, i, j - 1);
    }
  }

  ghost predicate RowAbove(a: string, b: string, i: nat, low: int)
    requires i <= |a|
  {
    forall j: nat :: j <= |b| ==> Prefix(a, b, i, j) > low
  }

  /** Once every entry of a row is above a bound, so is every entry of every later row. */
  lemma {:induction false} RowNeverRecovers(a: string, b: string, i: nat, k: nat, low: int)
    requires i <= k <= |a| && RowAbove(a, b, i, low)
    ensures RowAbove(a, b, k, low)
    decreases k - i
  {
    if i < k {
      var next := i + 1;
      forall j: nat | j <= |b| ensures Prefix(a, b, next, j) > low {
        NextRowAbove(a, b, i, j, low);
      }
      RowNeverRecovers(a, b, i + 1, k, low);
    }
  }

  lemma {:induction false} NextRowAbove(a: string, b: string, i: nat, j: nat, low: int)
    requires i < |a| && j <= |b| && RowAbove(a, b, i, low)
    ensures Prefix(a, b, i + 1, j) > low
  {
    assert Prefix(a, b, i, j) > low;
    if j == 0 {
      assert Prefix(a, b, i, 0) == i;
    } else {
      assert Prefix(a, b, i, j - 1) > low;
      NextRowAbove(a, b, i, j - 1, low);
    }
  }

  lemma {:induction false} SelfDistance(a: string, i: nat)
    requires i <= |a|
    ensures Prefix(a, a, i, i) == 0
  {
    if i > 0 {
      SelfDistance(a, i - 1);
    }
  }

  // ---------- The loop ----------

  ghost predicate IsRow(row: seq<int>, a: string, b: string, i: nat, n: nat)
    requires i <= |a| && n <= |b| + 1
  {
    n <= |row| && forall k: nat :: k < n ==> row[k] == Prefix(a, b, i, k)
  }

  /** One turn of the outer loop: row `i` of the table from row `i - 1`, and the row's minimum. */
  method NextRow(a: string, b: string, i: nat, prev: array<int>, curr: array<int>) returns (rowMin: int)
    requires 0 < i <= |a| && prev != curr && prev.Length == curr.Length == |b| + 1
    requires IsRow(prev[..], a, b, i - 1, |b| + 1)
    modifies curr
    ensures IsRow(curr[..], a, b, i, |b| + 1)
    ensures rowMin in curr[..] && forall k :: 0 <= k <= |b| ==> rowMin <= curr[k]
  {
    curr[0] := i;
    rowMin := curr[0];
    for j := 1 to |b| + 1
      invariant prev[..] == old(prev[..])
      invariant IsRow(curr[..], a, b, i, j)
      invariant rowMin in curr[..j] && forall k :: 0 <= k < j ==> rowMin <= curr[k]
    {
      var cost := if a[i - 1] == b[j - 1] then 0 else 1;
      assert prev[..][j - 1] == Prefix(a, b, i - 1, j - 1) && prev[..][j] == Prefix(a, b, i - 1, j);
      assert curr[..][j - 1] == Prefix(a, b, i, j - 1);
      var m := prev[j - 1] + cost;
      var v := prev[j] + 1;
      if v < m { m := v; }
      v := curr[j - 1] + 1;
      if v < m { m := v; }
      assert m == Prefix(a, b, i, j);
      ghost var before := curr[..];
      curr[j] := m;
      assert curr[..] == before[j := m];
      assert curr[..j + 1] == before[..j] + [m];
      if m < rowMin { rowMin := m; }
    }
    assert curr[..|b| + 1] == curr[..];
  }

  /** Distance between `a` and `b` when it is at most `max`, else -1. Equal texts are answered
      before `max` is looked at, so a negative `max` still gives 0 for them. */
  method EditDistanceWithin(a: string, b: string, max: int) returns (r: int)
    ensures r == if Distance(a, b) <= max || a == b then Distance(a, b) else -1
    ensures a == b ==> r == 0
  {
    if a == b {
      SelfDistance(a, |a|);
      return 0;
    }
    var la, lb := |a|, |b|;
    if la == 0 {
      return if lb <= max then lb else -1;
    }
    if lb == 0 {
      return if la <= max then la else -1;
    }
    var diff := la - lb;
    LengthGap(a, b, la, lb);
    if diff > max || -diff > max {
      return -1;
    }
    var prev, curr := new int[lb + 1], new int[lb + 1];
    for j := 0 to lb + 1
      invariant forall k: nat :: k < j ==> prev[k] == k
    {
      prev[j] := j;
    }
    for i := 1 to la + 1
      invariant prev != curr && prev.Length == curr.Length == lb + 1
      invariant fresh(prev) && fresh(curr)
      invariant IsRow(prev[..], a, b, i - 1, lb + 1)
    {
      var rowMin := NextRow(a, b, i, prev, curr);
      if rowMin > max {
        assert RowAbove(a, b, i, max) by {
          forall j: nat | j <= lb ensures Prefix(a, b, i, j) > max { assert curr[..][j] == Prefix(a, b, i, j); }
        }
        RowNeverRecovers(a, b, i, la, max);
        return -1;
      }
      prev, curr := curr, prev;
    }
    assert prev[..][lb] == Distance(a, b);
    if prev[lb] > max {
      return -1;
    }
    return prev[lb];
  }

  /** Some script within the budget turns `a` into `b`. */
  ghost predicate WithinBudget(a: string, b: string, max: int) {
    exists s :: Rewrites(s, a, b) && Cost(s) <= max
  }

  /** The loop answers with a distance exactly when a script within the budget exists, for every
      pair of texts, if and only if the budget is not negative: at a negative one equal texts answer 0. */
  lemma AnswersExactlyWithinBudget(max: int)
    ensures (forall a: string, b: string :: WithinBudget(a, b, max) <==> (Distance(a, b) <= max || a == b)) <==>
      max >= 0
  {
    forall a: string, b: string
      ensures WithinBudget(a, b, max) <==> Distance(a, b) <= max
      ensures a == b ==> Distance(a, b) == 0
    {
      DistanceIsCheapest(a, b);
      if a == b { SelfDistance(a, |a|); }
    }
    if max < 0 {
      assert !WithinBudget("", "", max);
    }
  }
}
