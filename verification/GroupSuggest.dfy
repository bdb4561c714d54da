/** Suggesting group names for a name that is not one: the closest first, the same list whatever order
    the table is read in. */
module GroupSuggest {
  import opened Common
  import opened EditDistance
  import Bags
  import Sorting
  import Text

  const DEFAULT_LIMIT := 3

  const MAX_DISTANCE := 2

  datatype Candidate = Candidate(name: string, score: int)

  /** How far a group name is from the given one, both without spaces around and in lower case: 0 when
      they are the same, 1 when one contains the other, more for each edit, and nothing too far away. */
  function Score(name: string, other: string): Option<int> {
    if other == "" then None
    else if other == name then Some(0)
    else if Text.Contains(other, name) || Text.Contains(name, other) then Some(1)
    else if Distance(name, other) <= MAX_DISTANCE then Some(10 + Distance(name, other))
    else None
  }

  function ScoreOf(name: string, group: string): Option<int> {
    Score(Text.ToLower(Text.TrimSpace(name)), Text.ToLower(Text.TrimSpace(group)))
  }

  /** Closest first, then by name. */
  function Closer(): (Candidate, Candidate) -> bool {
    (a: Candidate, b: Candidate) => a.score < b.score || (a.score == b.score && Text.AtMost(a.name, b.name))
  }

  lemma CloserIsTotal()
    ensures Sorting.TotalOrder(Closer())
  {
    forall x: Candidate, y: Candidate ensures Closer()(x, y) || Closer()(y, x) {
      Text.AtMostTotal(x.name, y.name);
    }
    forall x: Candidate, y: Candidate | Closer()(x, y) && Closer()(y, x) ensures x == y {
      Text.AtMostTotal(x.name, y.name);
    }
    forall x: Candidate, y: Candidate, z: Candidate | Closer()(x, y) && Closer()(y, z) ensures Closer()(x, z) {
      if x.score == y.score == z.score {
        Text.AtMostTransitive(x.name, y.name, z.name);
      }
    }
  }

  function Candidates(name: string, groups: seq<string>): seq<Candidate> {
    if groups == [] then []
    else
      var init, last := Candidates(name, groups[..|groups| - 1]), groups[|groups| - 1];
      if ScoreOf(name, last).Some? then init + [Candidate(Text.TrimSpace(last), ScoreOf(name, last).value)] else init
  }

  predicate IsCandidate(name: string, group: string, c: Candidate) {
    ScoreOf(name, group) == Some(c.score) && c.name == Text.TrimSpace(group)
  }

  ghost predicate Deserves(name: string, groups: seq<string>, c: Candidate) {
    exists i :: 0 <= i < |groups| && IsCandidate(name, groups[i], c)
  }

  lemma DeservesSnoc(name: string, init: seq<string>, last: string, c: Candidate)
    ensures Deserves(name, init + [last], c) <==> Deserves(name, init, c) || IsCandidate(name, last, c)
  {
    var all := init + [last];
    if Deserves(name, init, c) {
      var i :| 0 <= i < |init| && IsCandidate(name, init[i], c);
      assert IsCandidate(name, all[i], c);
    }
    assert all[|init|] == last;
  }

  lemma {:induction false} CandidatesExactly(name: string, groups: seq<string>, c: Candidate)
    ensures c in Candidates(name, groups) <==> Deserves(name, groups, c)
    decreases |groups|
  {
    if groups != [] {
      var init, last := groups[..|groups| - 1], groups[|groups| - 1];
      CandidatesExactly(name, init, c);
      assert groups == init + [last];
      DeservesSnoc(name, init, last, c);
    }
  }

  function Names(cs: seq<Candidate>): (names: seq<string>)
    ensures |names| == |cs| && forall i :: 0 <= i < |cs| ==> names[i] == cs[i].name
  {
    if cs == [] then [] else Names(cs[..|cs| - 1]) + [cs[|cs| - 1].name]
  }

  lemma NamesSnoc(cs: seq<Candidate>, i: nat)
    requires i < |cs|
    ensures Names(cs[..i + 1]) == Names(cs[..i]) + [cs[i].name]
  {
    assert cs[..i + 1][..i] == cs[..i];
  }

  function Limit(limit: int, n: nat): nat {
    var l := if limit <= 0 then DEFAULT_LIMIT else limit;
    if l < n then l else n
  }

  /** All candidates, closest first. */
  function Ranked(name: string, groups: seq<string>): seq<Candidate> {
    Sorting.Sort(Candidates(name, groups), Closer())
  }

  /** The score of one group; the edit distance is only looked at when nothing simpler fits. */
  method ScoreGroup(name: string, group: string) returns (score: Option<int>)
    ensures score == ScoreOf(name, group)
  {
    var lower, other := Text.ToLower(Text.TrimSpace(name)), Text.TrimSpace(group);
    if other == "" {
      return None;
    }
    var otherLower := Text.ToLower(other);
    if otherLower == lower {
      return Some(0);
    }
    if Text.Contains(otherLower, lower) || Text.Contains(lower, otherLower) {
      return Some(1);
    }
    var d := EditDistanceWithin(lower, otherLower, MAX_DISTANCE);
    score := if d >= 0 then Some(10 + d) else None;
  }

  method CollectCandidates(name: string, groups: seq<string>) returns (candidates: seq<Candidate>)
    ensures candidates == Candidates(name, groups)
  {
    candidates := [];
    for i := 0 to |groups|
      invariant candidates == Candidates(name, groups[..i])
    {
      ghost var upto := groups[..i + 1];
      assert upto[..i] == groups[..i] && upto[i] == groups[i];
      var score := ScoreGroup(name, groups[i]);
      if score.Some? {
        candidates := candidates + [Candidate(Text.TrimSpace(groups[i]), score.value)];
      }
    }
    assert groups[..|groups|] == groups;
  }

  /** The best candidates, as many as asked for. */
  method GroupSuggestSimilar(name: string, limit: int, groups: seq<string>) returns (out: seq<string>)
    ensures Text.TrimSpace(name) == "" ==> out == []
    ensures Text.TrimSpace(name) != "" ==>
      var ranked := Ranked(name, groups);
      out == Names(ranked[..Limit(limit, |ranked|)])
  {
    if Text.TrimSpace(name) == "" {
      return [];
    }
    var candidates := CollectCandidates(name, groups);
    var ranked := Sorting.Sort(candidates, Closer());
    var most := if limit <= 0 then DEFAULT_LIMIT else limit;
    out := [];
    var i := 0;
    while i < |ranked| && |out| < most
      invariant 0 <= i <= |ranked| && i <= most && out == Names(ranked[..i])
    {
      NamesSnoc(ranked, i);
      out := out + [ranked[i].name];
      i := i + 1;
    }
  }

  /** As many as asked for, three when no number is given, and fewer only when there are no more. */
  lemma LimitInFull(limit: int, n: nat)
    ensures Limit(limit, n) <= n
    ensures limit > 0 ==> Limit(limit, n) <= limit && (Limit(limit, n) < limit ==> Limit(limit, n) == n)
    ensures limit <= 0 ==> Limit(limit, n) <= 3 && (Limit(limit, n) < 3 ==> Limit(limit, n) == n)
  {
  }

  lemma RankedFacts(name: string, groups: seq<string>)
    ensures Sorting.Sorted(Ranked(name, groups), Closer())
    ensures multiset(Ranked(name, groups)) == multiset(Candidates(name, groups))
    ensures forall c :: c in Ranked(name, groups) <==> Deserves(name, groups, c)
  {
    CloserIsTotal();
    Sorting.SortIsSorted(Candidates(name, groups), Closer());
    forall c ensures c in Ranked(name, groups) <==> Deserves(name, groups, c) {
      CandidatesExactly(name, groups, c);
    }
  }

  lemma FirstOnes(ranked: seq<Candidate>, n: nat, c: Candidate)
    requires n <= |ranked| && Sorting.Sorted(ranked, Closer()) && c in ranked
    ensures c in ranked[..n] || forall i :: 0 <= i < n ==> Closer()(ranked[i], c)
  {
    var k :| 0 <= k < |ranked| && ranked[k] == c;
    if k < n {
      assert ranked[..n][k] == c;
    }
  }

  /** A group that is a candidate is listed, unless everything that is listed is at least as close; and
      nothing is listed that is not a candidate. */
  lemma NothingCloserIsLeftOut(name: string, groups: seq<string>, n: nat, c: Candidate)
    requires n <= |Ranked(name, groups)|
    ensures c in Ranked(name, groups)[..n] ==> Deserves(name, groups, c)
    ensures Deserves(name, groups, c) ==>
      c in Ranked(name, groups)[..n] || forall i :: 0 <= i < n ==> Closer()(Ranked(name, groups)[i], c)
  {
    RankedFacts(name, groups);
    if Deserves(name, groups, c) {
      FirstOnes(Ranked(name, groups), n, c);
    }
  }

  /** When some group has the name but for letter case, the list starts with such a group. */
  lemma SameNameFirst(name: string, groups: seq<string>, k: nat)
    requires k < |groups| && Text.TrimSpace(groups[k]) != ""
    requires Text.ToLower(Text.TrimSpace(groups[k])) == Text.ToLower(Text.TrimSpace(name))
    ensures |Ranked(name, groups)| > 0 && Ranked(name, groups)[0].name != ""
    ensures Text.ToLower(Ranked(name, groups)[0].name) == Text.ToLower(Text.TrimSpace(name))
  {
    var c := Candidate(Text.TrimSpace(groups[k]), 0);
    RankedFacts(name, groups);
    assert IsCandidate(name, groups[k], c);
    assert Deserves(name, groups, c);
    var j :| 0 <= j < |Ranked(name, groups)| && Ranked(name, groups)[j] == c;
    var head := Ranked(name, groups)[0];
    assert Closer()(head, Ranked(name, groups)[j]);
    assert head in Ranked(name, groups) && Deserves(name, groups, head);
    var i :| 0 <= i < |groups| && IsCandidate(name, groups[i], head);
    assert ScoreOf(name, groups[i]) == Some(head.score) && head.score <= 0;
  }

  // ---------- The list, told by the texts ----------

  function Plain(s: string): string { Text.ToLower(Text.TrimSpace(s)) }

  /** One of the texts is part of the other. */
  ghost predicate Overlap(x: string, y: string) { Text.PartOf(x, y) || Text.PartOf(y, x) }

  lemma SameOverlaps(x: string)
    ensures Overlap(x, x)
  {
    assert x == "" + x + "";
  }

  /** A group is a candidate when it has a name that overlaps with the given one or is at most two edits away. */
  lemma CandidateInFull(name: string, group: string)
    ensures ScoreOf(name, group).Some? <==>
      Plain(group) != "" && (Overlap(Plain(name), Plain(group)) || Distance(Plain(name), Plain(group)) <= 2)
  {
    ScoreInFull(Plain(name), Plain(group));
  }

  lemma OverlapExactly(x: string, y: string)
    ensures Overlap(x, y) <==> Text.Contains(y, x) || Text.Contains(x, y)
  {
    Text.ContainsExactly(y, x);
    Text.ContainsExactly(x, y);
  }

  /** A score says how the two texts are related. */
  lemma ScoreInFull(n: string, x: string)
    ensures Score(n, x).Some? <==> x != "" && (Overlap(n, x) || Distance(n, x) <= 2)
    ensures x != "" ==> (Score(n, x) == Some(0) <==> x == n) && (Score(n, x) == Some(1) <==> x != n && Overlap(n, x))
    ensures x != "" && !Overlap(n, x) && Distance(n, x) <= 2 ==> Score(n, x) == Some(10 + Distance(n, x))
  {
    OverlapExactly(n, x);
    SameOverlaps(n);
  }

  /** Two texts as close to `n` as each other. */
  ghost predicate AsClose(n: string, x: string, y: string) {
    && (x == n <==> y == n) && (Overlap(n, x) <==> Overlap(n, y))
    && (Overlap(n, x) || Distance(n, x) == Distance(n, y))
  }

  /** Equal names come before overlapping ones, those before the others, the others by their edits, and what
      is left by the name. */
  lemma RankedInFull(name: string, groups: seq<string>, i: nat, j: nat)
    requires i < j < |Ranked(name, groups)|
    ensures var n, x, y := Plain(name), Ranked(name, groups)[i].name, Ranked(name, groups)[j].name;
      && (Plain(y) == n ==> Plain(x) == n)
      && (Overlap(n, Plain(y)) ==> Overlap(n, Plain(x)))
      && (!Overlap(n, Plain(x)) ==> Distance(n, Plain(x)) <= Distance(n, Plain(y)))
      && (AsClose(n, Plain(x), Plain(y)) ==> Text.AtMost(x, y))
  {
    var a, b := Ranked(name, groups)[i], Ranked(name, groups)[j];
    RankedFacts(name, groups);
    assert Closer()(a, b);
    ScoreByTexts(name, groups, a);
    ScoreByTexts(name, groups, b);
  }

  lemma ScoreByTexts(name: string, groups: seq<string>, c: Candidate)
    requires c in Ranked(name, groups)
    ensures var n, x := Plain(name), Plain(c.name);
      && (x == n <==> c.score == 0) && (x == n ==> Overlap(n, x))
      && (x != n && Overlap(n, x) <==> c.score == 1)
      && (!Overlap(n, x) ==> c.score == 10 + Distance(n, x))
  {
    RankedFacts(name, groups);
    var k :| 0 <= k < |groups| && IsCandidate(name, groups[k], c);
    Text.TrimTwice(groups[k]);
    assert Plain(c.name) == Plain(groups[k]);
    ScoreInFull(Plain(name), Plain(groups[k]));
    SameOverlaps(Plain(name));
  }

  function One(name: string): string -> multiset<Candidate> {
    (group: string) =>
      if ScoreOf(name, group).Some? then multiset{Candidate(Text.TrimSpace(group), ScoreOf(name, group).value)}
        else multiset{}
  }

  lemma {:induction false} BagOfCandidates(name: string, groups: seq<string>)
    ensures multiset(Candidates(name, groups)) == Bags.Bag(groups, One(name))
    decreases |groups|
  {
    if groups != [] {
      BagOfCandidates(name, groups[..|groups| - 1]);
    }
  }

  /** The order in which the groups are read makes no difference. */
  lemma RankedIgnoresOrder(name: string, groups: seq<string>, other: seq<string>)
    requires multiset(groups) == multiset(other)
    ensures Ranked(name, groups) == Ranked(name, other)
  {
    CloserIsTotal();
    BagOfCandidates(name, groups);
    BagOfCandidates(name, other);
    Bags.BagIgnoresOrder(groups, other, One(name));
    RankedFacts(name, groups);
    RankedFacts(name, other);
    Sorting.SortedIsUnique(Ranked(name, groups), Ranked(name, other), Closer());
  }
}
