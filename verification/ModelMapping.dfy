/** Rewriting of client model names: the first enabled rule that matches, in priority order,
    decides; without one the name is kept as it is. */
module ModelMapping {
  import opened Common
  import Text
  import Wildcard

  datatype MatchType = Exact | Glob | Regex | Unknown(name: string)

  datatype Rule = Rule(id: int, pattern: string, matchType: MatchType, target: string, priority: int, enabled: bool)

  /** The regular expression engine: which patterns compile and what they match. */
  datatype RegexEngine = RegexEngine(compiles: string -> bool, finds: (string, string) -> bool)

  /** Whether a rule applies to a requested name, ignoring whether it is enabled. A pattern that
      does not compile never applies. */
  predicate Applies(engine: RegexEngine, rule: Rule, name: string) {
    match rule.matchType
    case Exact => Text.ToLower(name) == Text.ToLower(rule.pattern)
    case Glob => Wildcard.Accepts(Text.ToLower(rule.pattern), Text.ToLower(name))
    case Regex => engine.compiles(rule.pattern) && engine.finds(rule.pattern, name)
    case Unknown(_) => false
  }

  /** Two texts of one length that differ in letter case at most. */
  predicate SameLetters(x: string, y: string) {
    |x| == |y| && forall i :: 0 <= i < |x| ==> Text.LowerChar(x[i]) == Text.LowerChar(y[i])
  }

  /** What the kinds of rules mean: the name itself, a pattern with wildcards, both whatever the letter case, or a
      regular expression that compiles. */
  lemma AppliesInFull(engine: RegexEngine, rule: Rule, name: string)
    ensures rule.matchType == Exact ==> (Applies(engine, rule, name) <==> SameLetters(name, rule.pattern))
    ensures rule.matchType == Glob && '*' !in name ==>
      (Applies(engine, rule, name) <==> Wildcard.Glob(Text.ToLower(rule.pattern), Text.ToLower(name)))
    ensures rule.matchType == Regex ==>
      (Applies(engine, rule, name) <==> engine.compiles(rule.pattern) && engine.finds(rule.pattern, name))
    ensures rule.matchType.Unknown? ==> !Applies(engine, rule, name)
  {
    var x, y := Text.ToLower(name), Text.ToLower(rule.pattern);
    if SameLetters(name, rule.pattern) {
      assert forall i :: 0 <= i < |x| ==> x[i] == y[i];
      assert x == y;
    }
    if x == y {
      forall i | 0 <= i < |name| ensures Text.LowerChar(name[i]) == Text.LowerChar(rule.pattern[i]) {
        assert x[i] == y[i];
      }
    }
    if '*' !in name {
      assert '*' !in x;
      Wildcard.RightExactlyWithoutStars(x);
    }
  }

  /** Rule `x` is tried before rule `y`: higher priority first, then the lower id. */
  predicate Before(x: Rule, y: Rule) {
    x.priority > y.priority || (x.priority == y.priority && x.id < y.id)
  }

  /** The primary key of the table. */
  ghost predicate DistinctIds(rows: seq<Rule>) {
    forall i, j :: 0 <= i < j < |rows| ==> rows[i].id != rows[j].id
  }

  ghost predicate Ordered(rows: seq<Rule>) {
    forall i, j :: 0 <= i < j < |rows| ==> Before(rows[i], rows[j])
  }

  class MappingCache {
    const engine: RegexEngine
    var items: seq<Rule>
    var regex: set<int>  // ids of the rules whose pattern was compiled

    ghost predicate Valid()
      reads this
    {
      && Ordered(items) && DistinctIds(items)
      && regex == CompiledIds(engine, items)
    }

    constructor (engine: RegexEngine)
      ensures Valid() && items == [] && this.engine == engine
    {
      this.engine := engine;
      items := [];
      regex := {};
    }

    /** Replaces the cache with the rows of the table, in the order the query gives them. */
    method Refresh(rows: seq<Rule>)
      requires Ordered(rows) && DistinctIds(rows)
      modifies this
      ensures Valid() && items == rows
    {
      var compiled: set<int> := {};
      for i := 0 to |rows|
        invariant compiled == CompiledIds(engine, rows[..i])
      {
        assert rows[..i + 1] == rows[..i] + [rows[i]];
        if rows[i].matchType.Regex? && engine.compiles(rows[i].pattern) {
          compiled := compiled + {rows[i].id};
        }
      }
      assert rows[..|rows|] == rows;
      items := rows;
      regex := compiled;
    }

    method MatchRule(rule: Rule, compiled: bool, name: string) returns (r: bool)
      requires rule.matchType.Regex? ==> compiled == engine.compiles(rule.pattern)
      ensures r == Applies(engine, rule, name)
    {
      match rule.matchType {
        case Exact => r := Text.ToLower(name) == Text.ToLower(rule.pattern);
        case Glob => r := Wildcard.MatchWildcard(rule.pattern, name);
        case Regex => r := compiled && engine.finds(rule.pattern, name);
        case Unknown(_) => r := false;
      }
    }

    /** The rule that decides is enabled, applies, and comes before every other such rule; the name
        changes only then. The empty name is never rewritten. */
    method Resolve(name: string) returns (resolved: string, rule: Option<Rule>)
      requires Valid()
      ensures rule.None? ==> resolved == name
      ensures rule.None? <==> name == "" || forall r :: r in items && r.enabled ==> !Applies(engine, r, name)
      ensures rule.Some? ==>
        && rule.value in items && rule.value.enabled && Applies(engine, rule.value, name)
        && resolved == rule.value.target
        && forall r :: r in items && r.enabled && Applies(engine, r, name) && r != rule.value ==>
          rule.value.priority > r.priority || (rule.value.priority == r.priority && rule.value.id < r.id)
    {
      if name == "" {
        return name, None;
      }
      for i := 0 to |items|
        invariant forall k :: 0 <= k < i && items[k].enabled ==> !Applies(engine, items[k], name)
      {
        var item := items[i];
        if !item.enabled {
          continue;
        }
        assert item.matchType.Regex? ==> (item.id in regex <==> engine.compiles(item.pattern)) by {
          if item.matchType.Regex? { CompiledExactly(engine, items, i); }
        }
        var hit := MatchRule(item, item.id in regex, name);
        if hit {
          return item.target, Some(item);
        }
      }
      return name, None;
    }
  }

  function CompiledIds(engine: RegexEngine, rows: seq<Rule>): set<int> {
    set i | 0 <= i < |rows| && rows[i].matchType.Regex? && engine.compiles(rows[i].pattern) :: rows[i].id
  }

  /** Ids are distinct, so the compiled set speaks about each rule's own pattern. */
  lemma CompiledExactly(engine: RegexEngine, rows: seq<Rule>, i: nat)
    requires i < |rows| && rows[i].matchType.Regex?
    requires DistinctIds(rows)
    ensures rows[i].id in CompiledIds(engine, rows) <==> engine.compiles(rows[i].pattern)
  {
    if rows[i].id in CompiledIds(engine, rows) {
      var k :| 0 <= k < |rows| && engine.compiles(rows[k].pattern) && rows[k].id == rows[i].id;
      assert k == i;
    }
  }
}
