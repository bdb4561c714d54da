/** The glob matcher of the model-name rewrite rules: `*` stands for any run of bytes, `?` for
    exactly one, everything else for itself, letter case aside.

    The loop remembers one star only. It is proved to decide the recursive relation `Glob` on
    every subject without a literal `*`, and that condition is shown to be exact. */
module Wildcard {
  import opened Text

  /** What a pattern means, stated without any search order. */
  predicate Glob(p: string, s: string)
    decreases |p| + |s|
  {
    if p == "" then s == ""
    else if p[0] == '*' then Glob(p[1..], s) || (s != "" && Glob(p, s[1..]))
    else s != "" && (p[0] == '?' || p[0] == s[0]) && Glob(p[1..], s[1..])
  }

  // ---------- Facts about the relation ----------

  /** A leading star may swallow any prefix of the subject. */
  lemma {:induction false} StarSkips(p: string, s: string, k: nat)
    requires p != "" && p[0] == '*' && k <= |s|
    requires Glob(p, s[k..])
    ensures Glob(p, s)
  {
    if k > 0 {
      assert s[1..][k - 1..] == s[k..];
      StarSkips(p, s[1..], k - 1);
    } else {
      assert s[0..] == s;
    }
  }

  /** A leading star matches by giving the rest of the pattern some suffix of the subject. */
  lemma {:induction false} StarWitness(p: string, s: string) returns (k: nat)
    requires p != "" && p[0] == '*' && Glob(p, s)
    ensures k <= |s| && Glob(p[1..], s[k..])
  {
    if Glob(p[1..], s) {
      assert s[0..] == s;
      return 0;
    }
    k := StarWitness(p, s[1..]);
    assert s[1..][k..] == s[k + 1..];
    k := k + 1;
  }

  predicate Plain(p: string) { '*' !in p }

  /** No star from index `lo` up to `hi`. */
  predicate PlainBetween(p: string, lo: int, hi: int)
    requires 0 <= lo && hi <= |p|
  {
    forall i :: lo <= i < hi ==> p[i] != '*'
  }

  /** A star-free segment consumes exactly its own length. */
  lemma {:induction false} PlainPrefix(p: string, n: nat, s: string)
    requires n <= |p| && Plain(p[..n]) && Glob(p, s)
    ensures n <= |s| && Glob(p[n..], s[n..])
  {
    if n > 0 {
      assert p[0] in p[..n] && p[1..][..n - 1] == p[..n][1..];
      PlainPrefix(p[1..], n - 1, s[1..]);
      assert p[1..][n - 1..] == p[n..] && s[1..][n - 1..] == s[n..];
    } else {
      assert p[0..] == p && s[0..] == s;
    }
  }

  predicate AllStars(p: string) { forall i :: 0 <= i < |p| ==> p[i] == '*' }

  lemma {:induction false} GlobEmptySubject(p: string)
    ensures Glob(p, "") <==> AllStars(p)
  {
    if p != "" {
      GlobEmptySubject(p[1..]);
      assert p == [p[0]] + p[1..];
    }
  }

  // ---------- What is still possible while the loop runs ----------

  /** Some later restart behind the star at `star` matches: the star takes at least one byte more
      than it has so far. */
  ghost predicate LaterRestart(p: string, s: string, star: int, match_: nat) {
    && 0 <= star < |p|
    && exists k :: match_ < k <= |s| && Glob(p[star + 1..], s[k..])
  }

  /** The single backtrack point is enough: when the pattern has reached its next star, any match
      that restarts later behind the old star is also a match from here. */
  lemma OldStarForgotten(p: string, s: string, star: int, match_: nat, pIdx: nat, sIdx: nat)
    requires 0 <= star < pIdx < |p| && p[pIdx] == '*' && PlainBetween(p, star + 1, pIdx)
    requires match_ <= sIdx <= |s| && sIdx - match_ == pIdx - star - 1
    requires LaterRestart(p, s, star, match_)
    ensures Glob(p[pIdx..], s[sIdx..])
  {
    var k :| match_ < k <= |s| && Glob(p[star + 1..], s[k..]);
    var n := pIdx - star - 1;
    assert p[star + 1..][..n] == p[star + 1..pIdx];
    PlainPrefix(p[star + 1..], n, s[k..]);
    assert p[star + 1..][n..] == p[pIdx..] && s[k..][n..] == s[sIdx..][k - match_..];
    StarSkips(p[pIdx..], s[sIdx..], k - match_);
  }

  /** Dropping a restart that fails leaves only the later ones. */
  lemma RestartNext(p: string, s: string, star: int, match_: nat)
    requires 0 <= star < |p| && match_ < |s|
    ensures LaterRestart(p, s, star, match_) <==>
            Glob(p[star + 1..], s[match_ + 1..]) || LaterRestart(p, s, star, match_ + 1)
  {
  }

  /** A leading star: either it takes nothing, or a later restart behind it matches. */
  lemma StarChoices(p: string, s: string, pIdx: nat, sIdx: nat)
    requires pIdx < |p| && p[pIdx] == '*' && sIdx <= |s|
    ensures Glob(p[pIdx..], s[sIdx..]) <==> Glob(p[pIdx + 1..], s[sIdx..]) || LaterRestart(p, s, pIdx, sIdx)
  {
    var q, t := p[pIdx..], s[sIdx..];
    assert q[1..] == p[pIdx + 1..];
    if Glob(q, t) {
      var k := StarWitness(q, t);
      assert t[k..] == s[sIdx + k..];
      assert t[0..] == t;
    }
    if Glob(q[1..], t) {
      assert Glob(q, t);
    }
    if LaterRestart(p, s, pIdx, sIdx) {
      var k :| sIdx < k <= |s| && Glob(p[pIdx + 1..], s[k..]);
      assert t[k - sIdx..] == s[k..];
      assert Glob(q, s[k..]);
      StarSkips(q, t, k - sIdx);
    }
  }

  /** The loop state has lost no match: matching the whole pair is matching the rest from here, or
      restarting behind the remembered star. */
  ghost predicate Pending(p: string, s: string, pIdx: nat, sIdx: nat, star: int, match_: nat)
    requires pIdx <= |p| && sIdx <= |s|
  {
    Glob(p[pIdx..], s[sIdx..]) || LaterRestart(p, s, star, match_)
  }

  // ---------- The search ----------

  /** What every turn of the search keeps: the bytes since the last star have been consumed one for one. */
  predicate Aligned(p: string, s: string, pIdx: nat, sIdx: nat, star: int, match_: nat) {
    && pIdx <= |p| && match_ <= sIdx <= |s|
    && (if star == -1 then pIdx == sIdx && match_ == 0
        else 0 <= star < |p| && p[star] == '*' && sIdx - match_ == pIdx - star - 1)
  }

  /** The search from one state of its four indices on. */
  predicate Scan(p: string, s: string, pIdx: nat, sIdx: nat, star: int, match_: nat)
    requires Aligned(p, s, pIdx, sIdx, star, match_)
    decreases |p| - star, |s| - match_, |s| - sIdx
  {
    if sIdx == |s| then
      AllStars(p[pIdx..])
    else if pIdx < |p| && (p[pIdx] == '?' || p[pIdx] == s[sIdx]) then
      Scan(p, s, pIdx + 1, sIdx + 1, star, match_)
    else if pIdx < |p| && p[pIdx] == '*' then
      Scan(p, s, pIdx + 1, sIdx, pIdx, sIdx)
    else
      star != -1 && Scan(p, s, star + 1, match_ + 1, star, match_ + 1)
  }

  // One lemma for each branch: accepting afterwards is sound, and no match is lost.

  lemma LiteralStep(p: string, s: string, pIdx: nat, sIdx: nat, star: int, match_: nat)
    requires pIdx < |p| && sIdx < |s| && (p[pIdx] == '?' || p[pIdx] == s[sIdx])
    ensures Pending(p, s, pIdx + 1, sIdx + 1, star, match_) ==> Pending(p, s, pIdx, sIdx, star, match_)
    ensures s[sIdx] != '*' && Pending(p, s, pIdx, sIdx, star, match_) ==>
      Pending(p, s, pIdx + 1, sIdx + 1, star, match_)
  {
    var q, t := p[pIdx..], s[sIdx..];
    assert q[1..] == p[pIdx + 1..] && t[1..] == s[sIdx + 1..];
    if p[pIdx] == '*' && Glob(q[1..], t[1..]) {
      assert Glob(q, t[1..]);
    }
  }

  /** The single backtrack point may move on to the next star. */
  lemma StarStep(p: string, s: string, pIdx: nat, sIdx: nat, star: int, match_: nat)
    requires Aligned(p, s, pIdx, sIdx, star, match_) && pIdx < |p| && p[pIdx] == '*'
    ensures Pending(p, s, pIdx + 1, sIdx, pIdx, sIdx) ==> Pending(p, s, pIdx, sIdx, star, match_)
    ensures PlainBetween(p, star + 1, pIdx) && Pending(p, s, pIdx, sIdx, star, match_) ==>
              Pending(p, s, pIdx + 1, sIdx, pIdx, sIdx)
  {
    if PlainBetween(p, star + 1, pIdx) && LaterRestart(p, s, star, match_) {
      OldStarForgotten(p, s, star, match_, pIdx, sIdx);
    }
    StarChoices(p, s, pIdx, sIdx);
  }

  lemma RestartStep(p: string, s: string, pIdx: nat, sIdx: nat, star: int, match_: nat)
    requires Aligned(p, s, pIdx, sIdx, star, match_) && sIdx < |s|
    requires pIdx < |p| ==> p[pIdx] !in {'?', '*', s[sIdx]}
    ensures Pending(p, s, pIdx, sIdx, star, match_) <==>
      star != -1 && Pending(p, s, star + 1, match_ + 1, star, match_ + 1)
  {
    assert !Glob(p[pIdx..], s[sIdx..]);
    if star != -1 {
      RestartNext(p, s, star, match_);
    }
  }

  /** At the end of the subject a later restart has too few bytes left for the segment behind the star. */
  lemma EndStep(p: string, s: string, pIdx: nat, sIdx: nat, star: int, match_: nat)
    requires Aligned(p, s, pIdx, sIdx, star, match_) && sIdx == |s|
    ensures AllStars(p[pIdx..]) ==> Pending(p, s, pIdx, sIdx, star, match_)
    ensures PlainBetween(p, star + 1, pIdx) && Pending(p, s, pIdx, sIdx, star, match_) ==> AllStars(p[pIdx..])
  {
    GlobEmptySubject(p[pIdx..]);
    if star >= 0 && PlainBetween(p, star + 1, pIdx) {
      var n := pIdx - star - 1;
      assert p[star + 1..][..n] == p[star + 1..pIdx];
      forall k | match_ < k <= |s| ensures !Glob(p[star + 1..], s[k..]) {
        if Glob(p[star + 1..], s[k..]) {
          PlainPrefix(p[star + 1..], n, s[k..]);
        }
      }
    }
  }

  /** Whatever the search accepts is a match, on every subject. */
  lemma {:induction false} ScanSound(p: string, s: string, pIdx: nat, sIdx: nat, star: int, match_: nat)
    requires Aligned(p, s, pIdx, sIdx, star, match_)
    requires Scan(p, s, pIdx, sIdx, star, match_)
    ensures Pending(p, s, pIdx, sIdx, star, match_)
    decreases |p| - star, |s| - match_, |s| - sIdx
  {
    if sIdx == |s| {
      EndStep(p, s, pIdx, sIdx, star, match_);
    } else if pIdx < |p| && (p[pIdx] == '?' || p[pIdx] == s[sIdx]) {
      ScanSound(p, s, pIdx + 1, sIdx + 1, star, match_);
      LiteralStep(p, s, pIdx, sIdx, star, match_);
    } else if pIdx < |p| && p[pIdx] == '*' {
      ScanSound(p, s, pIdx + 1, sIdx, pIdx, sIdx);
      StarStep(p, s, pIdx, sIdx, star, match_);
    } else {
      ScanSound(p, s, star + 1, match_ + 1, star, match_ + 1);
      RestartStep(p, s, pIdx, sIdx, star, match_);
    }
  }

  ghost predicate NoStar(s: string) { forall i :: 0 <= i < |s| ==> s[i] != '*' }

  /** The search stands where a match can still be found. */
  ghost predicate Hopeful(p: string, s: string, pIdx: nat, sIdx: nat, star: int, match_: nat) {
    Aligned(p, s, pIdx, sIdx, star, match_) && PlainBetween(p, star + 1, pIdx)
    && Pending(p, s, pIdx, sIdx, star, match_)
  }

  lemma HopefulLiteral(p: string, s: string, pIdx: nat, sIdx: nat, star: int, match_: nat)
    requires NoStar(s) && Hopeful(p, s, pIdx, sIdx, star, match_)
    requires pIdx < |p| && sIdx < |s| && (p[pIdx] == '?' || p[pIdx] == s[sIdx])
    ensures Hopeful(p, s, pIdx + 1, sIdx + 1, star, match_)
  {
    LiteralStep(p, s, pIdx, sIdx, star, match_);
  }

  lemma HopefulStar(p: string, s: string, pIdx: nat, sIdx: nat, star: int, match_: nat)
    requires Hopeful(p, s, pIdx, sIdx, star, match_) && pIdx < |p| && p[pIdx] == '*'
    ensures Hopeful(p, s, pIdx + 1, sIdx, pIdx, sIdx)
  {
    StarStep(p, s, pIdx, sIdx, star, match_);
  }

  lemma HopefulRestart(p: string, s: string, pIdx: nat, sIdx: nat, star: int, match_: nat)
    requires Hopeful(p, s, pIdx, sIdx, star, match_) && sIdx < |s|
    requires pIdx < |p| ==> p[pIdx] !in {'?', '*', s[sIdx]}
    ensures star != -1 && Hopeful(p, s, star + 1, match_ + 1, star, match_ + 1)
  {
    RestartStep(p, s, pIdx, sIdx, star, match_);
  }

  lemma HopefulEnd(p: string, s: string, pIdx: nat, sIdx: nat, star: int, match_: nat)
    requires Hopeful(p, s, pIdx, sIdx, star, match_) && sIdx == |s|
    ensures AllStars(p[pIdx..])
  {
    EndStep(p, s, pIdx, sIdx, star, match_);
  }

  /** Without a `*` in the subject the search loses no match. */
  lemma {:induction false} ScanComplete(p: string, s: string, pIdx: nat, sIdx: nat, star: int, match_: nat)
    requires NoStar(s) && Hopeful(p, s, pIdx, sIdx, star, match_)
    ensures Scan(p, s, pIdx, sIdx, star, match_)
    decreases |p| - star, |s| - match_, |s| - sIdx
  {
    if sIdx == |s| {
      HopefulEnd(p, s, pIdx, sIdx, star, match_);
    } else if pIdx < |p| && (p[pIdx] == '?' || p[pIdx] == s[sIdx]) {
      HopefulLiteral(p, s, pIdx, sIdx, star, match_);
      ScanComplete(p, s, pIdx + 1, sIdx + 1, star, match_);
    } else if pIdx < |p| && p[pIdx] == '*' {
      HopefulStar(p, s, pIdx, sIdx, star, match_);
      ScanComplete(p, s, pIdx + 1, sIdx, pIdx, sIdx);
    } else {
      HopefulRestart(p, s, pIdx, sIdx, star, match_);
      ScanComplete(p, s, star + 1, match_ + 1, star, match_ + 1);
    }
  }

  /** The search from the start. */
  predicate Accepts(p: string, s: string) { Scan(p, s, 0, 0, -1, 0) }

  lemma AcceptsOnlyMatches(p: string, s: string)
    requires Accepts(p, s)
    ensures Glob(p, s)
  {
    assert p[0..] == p && s[0..] == s;
    ScanSound(p, s, 0, 0, -1, 0);
  }

  lemma AcceptsEveryMatch(p: string, s: string)
    requires '*' !in s && Glob(p, s)
    ensures Accepts(p, s)
  {
    assert p[0..] == p && s[0..] == s;
    ScanComplete(p, s, 0, 0, -1, 0);
  }

  // ---------- Exactly which subjects are matched right ----------

  /** While the pattern fits byte for byte, the search never takes a star for a star. */
  lemma {:induction false} LiteralRun(p: string, s: string, n: nat)
    requires n <= |s| < |p|
    requires forall i :: n <= i < |s| ==> p[i] == '?' || p[i] == s[i]
    ensures Scan(p, s, n, n, -1, 0) <==> AllStars(p[|s|..])
    decreases |s| - n
  {
    if n < |s| {
      LiteralRun(p, s, n + 1);
    }
  }

  function AnyBytes(n: nat): string { seq(n, _ => '?') }

  /** `n` question marks match every text of `n` bytes. */
  lemma {:induction false} AnyBytesMatch(n: nat, s: string)
    requires |s| == n
    ensures Glob(AnyBytes(n), s)
  {
    if n > 0 {
      assert AnyBytes(n)[1..] == AnyBytes(n - 1);
      AnyBytesMatch(n - 1, s[1..]);
    }
  }

  lemma {:induction false} LiteralThen(u: string, p: string, s: string)
    requires Plain(u) && Glob(p, s)
    ensures Glob(u + p, u + s)
  {
    if u == "" {
      assert u + p == p && u + s == s;
    } else {
      assert (u + p)[1..] == u[1..] + p && (u + s)[1..] == u[1..] + s;
      LiteralThen(u[1..], p, s);
    }
  }

  /** A subject `u*v` (no star in `u`) is missed by the pattern `u*??..?` with one `?` too many for `v`. */
  lemma StarInSubjectIsMissed(s: string) returns (p: string)
    requires '*' in s
    ensures Glob(p, s) && !Accepts(p, s)
  {
    var k := 0;
    while s[k] != '*'
      invariant k < |s| && Plain(s[..k]) && '*' in s[k..]
      decreases |s| - k
    {
      assert s[k..] == [s[k]] + s[k + 1..] && s[..k + 1] == s[..k] + [s[k]];
      k := k + 1;
    }
    var u, v := s[..k], s[k + 1..];
    var marks := AnyBytes(|v| + 1);
    p := u + ("*" + marks);
    AnyBytesMatch(|v| + 1, s[k..]);
    assert ("*" + marks)[1..] == marks;
    assert Glob("*" + marks, s[k..]);
    assert u + s[k..] == s;
    LiteralThen(u, "*" + marks, s[k..]);
    assert forall i :: 0 <= i < |s| ==> p[i] == '?' || p[i] == s[i];
    LiteralRun(p, s, 0);
    assert p[|s|..][0] == '?';
  }

  /** A subject is matched right against every pattern if and only if it holds no literal `*`. */
  lemma RightExactlyWithoutStars(s: string)
    ensures (forall p :: Accepts(p, s) <==> Glob(p, s)) <==> '*' !in s
  {
    if '*' !in s {
      forall p ensures Accepts(p, s) <==> Glob(p, s) {
        if Accepts(p, s) { AcceptsOnlyMatches(p, s); }
        if Glob(p, s) { AcceptsEveryMatch(p, s); }
      }
    } else {
      var p := StarInSubjectIsMissed(s);
    }
  }

  // ---------- The loop ----------

  method MatchLowered(pattern: string, s: string) returns (r: bool)
    ensures r == Accepts(pattern, s)
  {
    var pIdx, sIdx := 0, 0;
    var starIdx, match_ := -1, 0;
    while sIdx < |s|
      invariant 0 <= pIdx && 0 <= sIdx && 0 <= match_
      invariant Aligned(pattern, s, pIdx, sIdx, starIdx, match_)
      invariant Accepts(pattern, s) == Scan(pattern, s, pIdx, sIdx, starIdx, match_)
      decreases |pattern| - starIdx, |s| - match_, |s| - sIdx
    {
      if pIdx < |pattern| && (pattern[pIdx] == '?' || pattern[pIdx] == s[sIdx]) {
        pIdx := pIdx + 1;
        sIdx := sIdx + 1;
        continue;
      }
      if pIdx < |pattern| && pattern[pIdx] == '*' {
        starIdx := pIdx;
        match_ := sIdx;
        pIdx := pIdx + 1;
        continue;
      }
      if starIdx != -1 {
        pIdx := starIdx + 1;
        match_ := match_ + 1;
        sIdx := match_;
        continue;
      }
      return false;
    }
    ghost var rest := pIdx;
    while pIdx < |pattern| && pattern[pIdx] == '*'
      invariant rest <= pIdx <= |pattern|
      invariant forall i :: rest <= i < pIdx ==> pattern[i] == '*'
    {
      pIdx := pIdx + 1;
    }
    assert pIdx < |pattern| ==> pattern[rest..][pIdx - rest] != '*';
    return pIdx == |pattern|;
  }

  /** Whatever is accepted is a match, letter case aside; on a subject without a literal `*`
      every match is accepted. */
  method MatchWildcard(pattern: string, s: string) returns (r: bool)
    ensures r == Accepts(ToLower(pattern), ToLower(s))
    ensures r ==> Glob(ToLower(pattern), ToLower(s))
    ensures '*' !in s ==> (r <==> Glob(ToLower(pattern), ToLower(s)))
  {
    r := MatchLowered(ToLower(pattern), ToLower(s));
    if r {
      AcceptsOnlyMatches(ToLower(pattern), ToLower(s));
    } else if '*' !in s && Glob(ToLower(pattern), ToLower(s)) {
      AcceptsEveryMatch(ToLower(pattern), ToLower(s));
    }
  }
}
