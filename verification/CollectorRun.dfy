/** Running a collection pack: log in, then read step by step, each response adding variables for the
    steps behind it. The web is an arbitrary function from requests to answers. */
module CollectorRun {
  import opened Common
  import opened Template
  import opened CollectorPack
  import Text

  // ---------- Responses ----------

  datatype Json =
    | Null
    | Bool(b: bool)
    | Number(text: string)
    | Str(s: string)
    | Arr(items: seq<Json>)
    | Obj(fields: map<string, Json>)

  /** What the standard library makes of a response, for the regular expressions a pack may hold: the
      groups of the first match, the whole match first. */
  datatype Response = Response(status: int, header: string -> string, payload: Json,
      matches: string -> Option<seq<string>>, hasCookies: bool)

  datatype Answer = NoConnection | Reply(response: Response)

  datatype Failure =
    | MissingVariables | NotExtracted | NoSession | Unauthorized | Unreachable | EndpointGone | BadStatus | NoBalance

  datatype Request = Request(verb: string, url: string, headers: map<string, string>, bodyType: string, body: string)

  datatype Result<T> = Ok(value: T) | Err(failure: Failure)

  /** Only a 2xx reply gets through, so no caller ever sees the status 401. */
  function DoRequest(a: Answer): (r: Result<Response>)
    ensures r.Ok? <==> a.Reply? && 200 <= a.response.status < 300
    ensures r.Ok? ==> r.value == a.response && r.value.status != 401
    ensures r == Err(Unauthorized) <==> a.Reply? && (a.response.status == 401 || a.response.status == 403)
  {
    match a
    case NoConnection => Err(Unreachable)
    case Reply(r) =>
      if r.status == 401 || r.status == 403 then Err(Unauthorized)
      else if r.status == 404 || r.status == 405 then Err(EndpointGone)
      else if r.status < 200 || r.status >= 300 then Err(BadStatus)
      else Ok(r)
  }

  // ---------- Paths into a response ----------

  function Split(path: string): (segments: seq<string>)
    ensures segments != []
  {
    if path == "" then [""]
    else
      var rest := Split(path[1..]);
      if path[0] == '.' then [""] + rest else [[path[0]] + rest[0]] + rest[1..]
  }

  function Descend(node: Json, segments: seq<string>, index: string -> int): Option<Json>
    decreases |segments|
  {
    if segments == [] then Some(node)
    else
      match node
      case Obj(fields) =>
        if segments[0] in fields then Descend(fields[segments[0]], segments[1..], index) else None
      case Arr(items) =>
        if 0 <= index(segments[0]) < |items| then Descend(items[index(segments[0])], segments[1..], index) else None
      case _ => None
  }

  /** The value at a dotted path; `index` reads a segment as an array position. */
  function LookupJSON(root: Json, path: string, index: string -> int): Option<Json> {
    if Text.TrimSpace(path) == "" then None else Descend(root, Split(path), index)
  }

  lemma InFront<T>(h: T, x: seq<T>, y: seq<T>)
    requires x != []
    ensures [h] + (x + y) == ([h] + x) + y && (x + y)[0] == x[0]
    ensures [h] + (x + y)[1..] == ([h] + x[1..]) + y
  {
  }

  lemma {:induction false} SplitJoin(p: string, q: string)
    ensures Split(p + "." + q) == Split(p) + Split(q)
  {
    var joined := p + "." + q;
    if p == "" {
      assert joined[0] == '.' && joined[1..] == q;
    } else {
      var c, rest := p[0], Split(p[1..]);
      SplitJoin(p[1..], q);
      assert joined[0] == c && joined[1..] == p[1..] + "." + q;
      InFront(if c == '.' then "" else [c] + rest[0], rest, Split(q));
    }
  }

  lemma {:induction false} DescendJoin(node: Json, a: seq<string>, b: seq<string>, index: string -> int)
    ensures Descend(node, a + b, index) ==
      if Descend(node, a, index).Some? then Descend(Descend(node, a, index).value, b, index) else None
    decreases |a|
  {
    if a == [] {
      assert a + b == b;
    } else {
      assert (a + b)[1..] == a[1..] + b;
      match node {
        case Obj(fields) => if a[0] in fields { DescendJoin(fields[a[0]], a[1..], b, index); }
        case Arr(items) => if 0 <= index(a[0]) < |items| { DescendJoin(items[index(a[0])], a[1..], b, index); }
        case _ =>
      }
    }
  }

  /** Looking up a joined path is looking up the second part in what the first one finds. */
  lemma LookupThrough(root: Json, p: string, q: string, index: string -> int)
    requires Text.TrimSpace(p) != "" && Text.TrimSpace(q) != "" && Text.TrimSpace(p + "." + q) != ""
    ensures LookupJSON(root, p + "." + q, index) ==
      if LookupJSON(root, p, index).Some? then LookupJSON(LookupJSON(root, p, index).value, q, index) else None
  {
    SplitJoin(p, q);
    DescendJoin(root, Split(p), Split(q), index);
  }

  lemma {:induction false} SplitOne(key: string)
    requires '.' !in key
    ensures Split(key) == [key]
  {
    if key != "" {
      SplitOne(key[1..]);
      assert key == [key[0]] + key[1..];
    }
  }

  lemma {:induction false} DescendNowhere(node: Json, index: string -> int)
    ensures Descend(node, [], index) == Some(node)
  {
  }

  /** A path of one segment: the field of that name, or the item at the place the segment reads as. */
  lemma {:induction false} LookupOne(root: Json, key: string, index: string -> int)
    requires '.' !in key && Text.TrimSpace(key) != ""
    ensures LookupJSON(root, key, index) ==
      match root
      case Obj(fields) => if key in fields then Some(fields[key]) else None
      case Arr(items) => if 0 <= index(key) < |items| then Some(items[index(key)]) else None
      case _ => None
  {
    SplitOne(key);
    var path := [key];
    assert path[1..] == [] && path[0] == key;
    match root {
      case Obj(fields) => if key in fields { DescendNowhere(fields[key], index); }
      case Arr(items) => if 0 <= index(key) < |items| { DescendNowhere(items[index(key)], index); }
      case _ =>
    }
  }

  // ---------- Extraction ----------

  /** The text of a value; only strings, numbers and booleans have one. */
  function CoerceString(value: Json): Option<string> {
    match value
    case Str(s) => Some(s)
    case Number(text) => Some(text)
    case Bool(b) => Some(if b then "true" else "false")
    case _ => None
  }

  function StatusText(status: int): string {
    if status < 0 then "-" + Text.Digits(-status) else Text.Digits(status)
  }

  /** The group a rule selects: asked for nothing in particular, the first one there is. */
  function GroupOf(rule: Rule, groups: seq<string>): nat {
    if rule.group == 0 && |groups| > 1 then 1 else rule.group
  }

  /** One rule: a value, nothing to keep, or the end of the run. */
  datatype Taken = Got(value: string) | Dropped | Absent

  function Take(rule: Rule, r: Response, index: string -> int): Taken {
    if rule.source == "status" then Got(StatusText(r.status))
    else if rule.source == "header" then
      if r.header(rule.path) == "" then Absent else Got(r.header(rule.path))
    else if rule.source == "json" then
      var node := LookupJSON(r.payload, rule.path, index);
      if node.None? then Absent
      else if CoerceString(node.value).Some? then Got(CoerceString(node.value).value) else Dropped
    else if rule.source == "regex" then
      var groups := r.matches(rule.regex);
      if groups.None? || GroupOf(rule, groups.value) >= |groups.value| then Absent
      else Got(groups.value[GroupOf(rule, groups.value)])
    else Dropped
  }

  /** What a rule takes, by its source. Without a group asked for, a match gives its first group, or all of
      itself when the expression has none; an absent header, path, match or group ends the run. */
  lemma TakesExactly(rule: Rule, r: Response, index: string -> int)
    ensures rule.source == "header" ==>
      (Take(rule, r, index).Absent? <==> r.header(rule.path) == "")
      && (r.header(rule.path) != "" ==> Take(rule, r, index) == Got(r.header(rule.path)))
    ensures rule.source == "status" && r.status >= 0 ==>
      Take(rule, r, index).Got? && Text.Read(Take(rule, r, index).value) == r.status
    ensures rule.source == "json" ==>
      var node := LookupJSON(r.payload, rule.path, index);
      && (Take(rule, r, index).Absent? <==> node.None?)
      && (Take(rule, r, index).Dropped? <==> node.Some? && (node.value.Null? || node.value.Arr? || node.value.Obj?))
      && (node.Some? && node.value.Str? ==> Take(rule, r, index) == Got(node.value.s))
      && (node.Some? && node.value.Number? ==> Take(rule, r, index) == Got(node.value.text))
      && (node == Some(Bool(true)) ==> Take(rule, r, index) == Got("true"))
      && (node == Some(Bool(false)) ==> Take(rule, r, index) == Got("false"))
    ensures rule.source == "regex" ==>
      var groups := r.matches(rule.regex);
      && (groups.None? ==> Take(rule, r, index).Absent?)
      && (groups.Some? && rule.group == 0 && |groups.value| > 1 ==> Take(rule, r, index) == Got(groups.value[1]))
      && (groups.Some? && rule.group == 0 && |groups.value| == 1 ==> Take(rule, r, index) == Got(groups.value[0]))
      && (groups.Some? && 0 < rule.group < |groups.value| ==> Take(rule, r, index) == Got(groups.value[rule.group]))
      && (groups.Some? && |groups.value| <= rule.group ==> Take(rule, r, index).Absent?)
  {
    if r.status >= 0 {
      Text.DigitsExactly(r.status);
    }
  }

  function Extracted(rules: seq<Rule>, r: Response, index: string -> int): Option<map<string, string>> {
    if rules == [] then Some(map[])
    else
      var init, last := Extracted(rules[..|rules| - 1], r, index), rules[|rules| - 1];
      if init.None? then None
      else
        match Take(last, r, index)
        case Got(value) => Some(init.value[last.field := value])
        case Dropped => init
        case Absent => None
  }

  /** The rules in order; the first absent value ends the extraction. */
  method ExtractFields(rules: seq<Rule>, r: Response, index: string -> int)
      returns (values: Option<map<string, string>>)
    ensures values == Extracted(rules, r, index)
  {
    var got: map<string, string> := map[];
    for i := 0 to |rules|
      invariant Extracted(rules[..i], r, index) == Some(got)
    {
      ghost var upto := rules[..i + 1];
      assert upto[..i] == rules[..i];
      match Take(rules[i], r, index) {
        case Got(value) => got := got[rules[i].field := value];
        case Dropped =>
        case Absent =>
          AbsentEndsIt(rules, i, r, index);
          return None;
      }
    }
    assert rules[..|rules|] == rules;
    values := Some(got);
  }

  lemma {:induction false} AbsentEndsIt(rules: seq<Rule>, i: nat, r: Response, index: string -> int)
    requires i < |rules| && Take(rules[i], r, index).Absent?
    ensures Extracted(rules, r, index) == None
  {
    if i < |rules| - 1 {
      AbsentEndsIt(rules[..|rules| - 1], i, r, index);
    }
  }

  /** Sources whose values are always kept; a JSON value may be none of the kinds that are. */
  predicate AlwaysKept(rule: Rule) { rule.source == "regex" || rule.source == "header" || rule.source == "status" }

  /** Fields that a successful extraction always has. */
  function Sure(rules: seq<Rule>): set<string> { set r | r in rules && AlwaysKept(r) :: r.field }

  lemma FieldsInit(rules: seq<Rule>)
    requires rules != []
    ensures Fields(rules) == Fields(rules[..|rules| - 1]) + {rules[|rules| - 1].field}
    ensures Sure(rules) ==
      Sure(rules[..|rules| - 1]) + if AlwaysKept(rules[|rules| - 1]) then {rules[|rules| - 1].field} else {}
  {
    var init, last := rules[..|rules| - 1], rules[|rules| - 1];
    forall r ensures r in rules <==> r in init || r == last {
      assert rules == init + [last];
    }
  }

  lemma AlwaysKeptIsKept(rule: Rule, r: Response, index: string -> int)
    ensures AlwaysKept(rule) ==> !Take(rule, r, index).Dropped?
  {
  }

  lemma {:induction false} ExtractedKeys(rules: seq<Rule>, r: Response, index: string -> int)
    requires Extracted(rules, r, index).Some?
    ensures Sure(rules) <= Extracted(rules, r, index).value.Keys <= Fields(rules)
    decreases |rules|
  {
    if rules != [] {
      ExtractedKeys(rules[..|rules| - 1], r, index);
      FieldsInit(rules);
      AlwaysKeptIsKept(rules[|rules| - 1], r, index);
    }
  }

  /** A field has the value of the last rule for it that took one. */
  lemma {:induction false} LastRuleWins(rules: seq<Rule>, r: Response, index: string -> int, k: nat)
    requires k < |rules| && Extracted(rules, r, index).Some? && Take(rules[k], r, index).Got?
    requires forall j :: k < j < |rules| && rules[j].field == rules[k].field ==> Take(rules[j], r, index).Dropped?
    ensures rules[k].field in Extracted(rules, r, index).value
    ensures Extracted(rules, r, index).value[rules[k].field] == Take(rules[k], r, index).value
    decreases |rules|
  {
    if k < |rules| - 1 {
      LastRuleWins(rules[..|rules| - 1], r, index, k);
    }
  }

  lemma {:induction false} KeptKeys(rules: seq<Rule>, r: Response, index: string -> int)
    requires Extracted(rules, r, index).Some? && forall rule :: rule in rules ==> !Take(rule, r, index).Dropped?
    ensures Extracted(rules, r, index).value.Keys == Fields(rules)
    decreases |rules|
  {
    if rules != [] {
      KeptKeys(rules[..|rules| - 1], r, index);
      FieldsInit(rules);
      assert rules[|rules| - 1] in rules;
    }
  }

  // ---------- The interpreter ----------

  datatype Credentials = Credentials(username: string, password: string, captcha: string, otp: string)

  type World = (nat, Request) -> Answer

  function Rendered(step: Step, vars: map<string, string>): Option<Request> {
    if Asks(step) <= vars.Keys
    then
      var headers := map k | k in step.headers :: Filled(Pieces(step.headers[k]), vars);
      Some(Request(step.verb, step.url, headers, step.bodyType, Filled(Pieces(step.body), vars)))
    else None
  }

  /** One request: render, send, extract. */
  function Perform(step: Step, vars: map<string, string>, world: World, n: nat,
      index: string -> int): Result<map<string, string>> {
    var request := Rendered(step, vars);
    if request.None? then Err(MissingVariables)
    else
      match DoRequest(world(n, request.value))
      case Err(f) => Err(f)
      case Ok(response) =>
        var values := Extracted(step.extract, response, index);
        if values.None? then Err(NotExtracted) else Ok(values.value)
  }

  /** A login that returns neither a cookie nor a value is none. */
  function LogIn(step: Step, vars: map<string, string>, world: World,
      index: string -> int): Result<map<string, string>> {
    match Perform(step, vars, world, 0, index)
    case Err(f) => Err(f)
    case Ok(values) =>
      var request := Rendered(step, vars);
      if request.Some? && world(0, request.value).Reply? && !world(0, request.value).response.hasCookies
        && values == map[]
      then Err(NoSession) else Ok(values)
  }

  datatype Outcome = Outcome(vars: map<string, string>, stopped: Option<Failure>)

  function RunSteps(steps: seq<Step>, vars: map<string, string>, got: map<string, string>, world: World, n: nat,
      index: string -> int): Outcome
    decreases |steps|
  {
    if steps == [] then Outcome(got, None)
    else
      match Perform(steps[0], vars, world, n, index)
      case Err(f) => Outcome(got, Some(f))
      case Ok(values) => RunSteps(steps[1..], vars + values, got + values, world, n + 1, index)
  }

  function StartVars(session: map<string, string>, creds: Credentials, site: string): map<string, string> {
    map["site" := site, "username" := creds.username, "password" := creds.password, "captcha" := creds.captcha,
      "otp" := creds.otp] + session
  }

  /** A form login is skipped when neither name nor password is given: the session is used as it is. */
  predicate LogsIn(p: Pack, creds: Credentials) {
    && p.login.Some? && p.login.value.mode == "form"
    && !(Text.TrimSpace(creds.username) == "" && Text.TrimSpace(creds.password) == "")
  }

  function Run(p: Pack, session: map<string, string>, creds: Credentials, site: string, world: World,
      index: string -> int): Outcome {
    var vars := StartVars(session, creds, site);
    if LogsIn(p, creds) then
      match LogIn(p.login.value.step, vars, world, index)
      case Err(f) => Outcome(map[], Some(f))
      case Ok(values) => RunSteps(p.read, vars + values, values, world, 1, index)
    else RunSteps(p.read, vars, map[], world, 0, index)
  }

  // ---------- When a variable can be missing ----------

  predicate Misses(o: Outcome) { o.stopped == Some(MissingVariables) }

  /** Every name a step asks for is bound whatever the answers were. */
  predicate Certain(steps: seq<Step>, bound: set<string>) {
    steps == [] || (Asks(steps[0]) <= bound && Certain(steps[1..], bound + Sure(steps[0].extract)))
  }

  predicate CertainRun(p: Pack, session: map<string, string>, creds: Credentials, site: string) {
    var bound := StartVars(session, creds, site).Keys;
    if LogsIn(p, creds)
    then Asks(p.login.value.step) <= bound && Certain(p.read, bound + Sure(p.login.value.step.extract))
    else Certain(p.read, bound)
  }

  lemma {:induction false} CertainGrows(steps: seq<Step>, bound: set<string>, more: set<string>)
    requires Certain(steps, bound) && bound <= more
    ensures Certain(steps, more)
    decreases |steps|
  {
    if steps != [] {
      CertainGrows(steps[1..], bound + Sure(steps[0].extract), more + Sure(steps[0].extract));
    }
  }

  lemma {:induction false} CertainNeverMisses(steps: seq<Step>, vars: map<string, string>, got: map<string, string>,
      world: World, n: nat, index: string -> int)
    requires Certain(steps, vars.Keys)
    ensures !Misses(RunSteps(steps, vars, got, world, n, index))
    decreases |steps|
  {
    if steps != [] {
      match Perform(steps[0], vars, world, n, index) {
        case Err(_) =>
        case Ok(values) =>
          ExtractedKeys(steps[0].extract, world(n, Rendered(steps[0], vars).value).response, index);
          CertainGrows(steps[1..], vars.Keys + Sure(steps[0].extract), (vars + values).Keys);
          CertainNeverMisses(steps[1..], vars + values, got + values, world, n + 1, index);
      }
    }
  }

  // ---------- Answers that keep as little as possible ----------

  /** An object in which every path over `keys` of at most `depth` segments ends at an object. */
  function Nest(keys: set<string>, depth: nat): Json {
    if depth == 0 then Obj(map[]) else Obj(map k | k in keys :: Nest(keys, depth - 1))
  }

  lemma {:induction false} NestDescends(keys: set<string>, depth: nat, segments: seq<string>, index: string -> int)
    requires |segments| <= depth && forall s :: s in segments ==> s in keys
    ensures var node := Descend(Nest(keys, depth), segments, index); node.Some? && CoerceString(node.value).None?
    decreases depth
  {
    if segments != [] {
      assert segments[0] in segments;
      NestDescends(keys, depth - 1, segments[1..], index);
    }
  }

  /** All paths of some rules. */
  function Segments(rules: seq<Rule>): set<string> { set r, s | r in rules && s in Split(r.path) :: s }

  function Longest(rules: seq<Rule>): nat {
    if rules == [] then 0
    else
      var n, m := Longest(rules[..|rules| - 1]), |Split(rules[|rules| - 1].path)|;
      if n < m then m else n
  }

  function MostGroups(rules: seq<Rule>): nat {
    if rules == [] then 0
    else
      var n, m := MostGroups(rules[..|rules| - 1]), rules[|rules| - 1].group;
      if n < m then m else n
  }

  lemma {:induction false} Bounds(rules: seq<Rule>, rule: Rule)
    requires rule in rules
    ensures |Split(rule.path)| <= Longest(rules) && rule.group <= MostGroups(rules)
  {
    if rules[|rules| - 1] != rule {
      assert rules == rules[..|rules| - 1] + [rules[|rules| - 1]];
      Bounds(rules[..|rules| - 1], rule);
    }
  }

  /** A reply in which every header and every match is there, and no JSON path ends at a text. */
  function Meagre(rules: seq<Rule>): Answer {
    var groups := seq(MostGroups(rules) + 2, i => "x");
    Reply(Response(200, (name: string) => "x", Nest(Segments(rules), Longest(rules)), (regex: string) => Some(groups),
      true))
  }

  /** Rules that loaded: JSON rules have a path. */
  predicate RulesLoaded(rules: seq<Rule>) {
    forall r :: r in rules ==>
      r.source in ["json", "regex", "header", "status"] && (r.source == "json" ==> Text.TrimSpace(r.path) != "")
  }

  lemma MeagreTake(all: seq<Rule>, rule: Rule, index: string -> int)
    requires rule in all && RulesLoaded(all)
    ensures var t := Take(rule, Meagre(all).response, index);
      !t.Absent? && (t.Got? <==> AlwaysKept(rule))
  {
    Bounds(all, rule);
    if rule.source == "json" {
      forall s | s in Split(rule.path) ensures s in Segments(all) {
      }
      NestDescends(Segments(all), Longest(all), Split(rule.path), index);
    }
  }

  lemma {:induction false} MeagreExtracts(all: seq<Rule>, rules: seq<Rule>, index: string -> int)
    requires RulesLoaded(all) && forall r :: r in rules ==> r in all
    ensures Extracted(rules, Meagre(all).response, index).Some?
    ensures Extracted(rules, Meagre(all).response, index).value.Keys == Sure(rules)
    decreases |rules|
  {
    if rules != [] {
      MeagreExtracts(all, rules[..|rules| - 1], index);
      FieldsInit(rules);
      assert rules[|rules| - 1] in all;
      MeagreTake(all, rules[|rules| - 1], index);
    }
  }

  function AllRules(steps: seq<Step>): seq<Rule> {
    if steps == [] then [] else steps[0].extract + AllRules(steps[1..])
  }

  /** The same meagre reply to every request. */
  function MeagreWorld(all: seq<Rule>): World { (n: nat, request: Request) => Meagre(all) }

  lemma {:induction false} UncertainMisses(steps: seq<Step>, all: seq<Rule>, vars: map<string, string>,
      got: map<string, string>, n: nat, index: string -> int)
    requires !Certain(steps, vars.Keys) && RulesLoaded(all) && forall r :: r in AllRules(steps) ==> r in all
    ensures Misses(RunSteps(steps, vars, got, MeagreWorld(all), n, index))
    decreases |steps|
  {
    var step := steps[0];
    if Asks(step) <= vars.Keys {
      MeagreExtracts(all, step.extract, index);
      var values := Extracted(step.extract, Meagre(all).response, index).value;
      assert (vars + values).Keys == vars.Keys + Sure(step.extract);
      UncertainMisses(steps[1..], all, vars + values, got + values, n + 1, index);
    }
  }

  lemma ValidRules(lib: Library, p: Pack)
    requires IsValid(lib, p)
    ensures RulesLoaded(AllRules(p.read))
    ensures p.login.Some? && p.login.value.mode == "form" ==> RulesLoaded(p.login.value.step.extract)
  {
    if p.login.Some? {
      LoginScope(lib, p.hosts, p.login.value);
    }
    StepRules(lib, p.hosts, p.read);
  }

  lemma {:induction false} StepRules(lib: Library, hosts: seq<string>, steps: seq<Step>)
    requires forall i :: 0 <= i < |steps| ==> ShapeOk(lib, hosts, steps[i])
    ensures RulesLoaded(AllRules(steps))
  {
    if steps != [] {
      StepRules(lib, hosts, steps[1..]);
      assert ShapeOk(lib, hosts, steps[0]);
      forall r | r in AllRules(steps)
        ensures r.source in ["json", "regex", "header", "status"]
        ensures r.source == "json" ==> Text.TrimSpace(r.path) != ""
      {
        assert r in steps[0].extract || r in AllRules(steps[1..]);
      }
    }
  }

  ghost predicate NeverMisses(p: Pack, session: map<string, string>, creds: Credentials, site: string,
      index: string -> int) {
    forall world: World :: !Misses(Run(p, session, creds, site, world, index))
  }

  lemma CertainIsEnough(p: Pack, session: map<string, string>, creds: Credentials, site: string, world: World,
      index: string -> int)
    requires CertainRun(p, session, creds, site)
    ensures !Misses(Run(p, session, creds, site, world, index))
  {
    var vars := StartVars(session, creds, site);
    if LogsIn(p, creds) {
      var step := p.login.value.step;
      match LogIn(step, vars, world, index) {
        case Err(_) =>
        case Ok(values) =>
          ExtractedKeys(step.extract, world(0, Rendered(step, vars).value).response, index);
          CertainGrows(p.read, vars.Keys + Sure(step.extract), (vars + values).Keys);
          CertainNeverMisses(p.read, vars + values, values, world, 1, index);
      }
    } else {
      CertainNeverMisses(p.read, vars, map[], world, 0, index);
    }
  }

  lemma UncertainLoginMisses(p: Pack, vars: map<string, string>, all: seq<Rule>, index: string -> int)
    requires p.login.Some? && RulesLoaded(all) && (forall r :: r in AllRules(p.read) ==> r in all)
    requires forall r :: r in p.login.value.step.extract ==> r in all
    requires !(Asks(p.login.value.step) <= vars.Keys && Certain(p.read, vars.Keys + Sure(p.login.value.step.extract)))
    ensures var r := LogIn(p.login.value.step, vars, MeagreWorld(all), index);
      r == Err(MissingVariables)
      || (r.Ok? && Misses(RunSteps(p.read, vars + r.value, r.value, MeagreWorld(all), 1, index)))
  {
    var step := p.login.value.step;
    if Asks(step) <= vars.Keys {
      MeagreExtracts(all, step.extract, index);
      var values := Extracted(step.extract, Meagre(all).response, index).value;
      assert LogIn(step, vars, MeagreWorld(all), index) == Ok(values);
      assert (vars + values).Keys == vars.Keys + Sure(step.extract);
      UncertainMisses(p.read, all, vars + values, values, 1, index);
    }
  }

  lemma UncertainCanMiss(lib: Library, p: Pack, session: map<string, string>, creds: Credentials, site: string,
      index: string -> int)
    requires IsValid(lib, p) && !CertainRun(p, session, creds, site)
    ensures !NeverMisses(p, session, creds, site, index)
  {
    ValidRules(lib, p);
    var vars := StartVars(session, creds, site);
    var own := if LogsIn(p, creds) then p.login.value.step.extract else [];
    var all := own + AllRules(p.read);
    if LogsIn(p, creds) {
      UncertainLoginMisses(p, vars, all, index);
    } else {
      UncertainMisses(p.read, all, vars, map[], 0, index);
    }
    assert Misses(Run(p, session, creds, site, MeagreWorld(all), index));
  }

  /** A loaded pack never stops at a missing variable, whatever is answered, exactly when every name its
      steps ask for is given at the start or taken, before, from a header, a match or a status. */
  lemma NeverMissesExactly(lib: Library, p: Pack, session: map<string, string>, creds: Credentials, site: string,
      index: string -> int)
    requires IsValid(lib, p)
    ensures NeverMisses(p, session, creds, site, index) <==> CertainRun(p, session, creds, site)
  {
    if CertainRun(p, session, creds, site) {
      forall world: World ensures !Misses(Run(p, session, creds, site, world, index)) {
        CertainIsEnough(p, session, creds, site, world, index);
      }
    } else {
      UncertainCanMiss(lib, p, session, creds, site, index);
    }
  }

  // ---------- What loading a pack is worth ----------

  /** Steps use the access token only where it is bound. */
  predicate TokenCovered(steps: seq<Step>, bound: set<string>) {
    steps == [] || (("token" in Asks(steps[0]) ==> "token" in bound)
      && TokenCovered(steps[1..], bound + Fields(steps[0].extract)))
  }

  /** When the request of the step goes through, every rule takes a value from its answer: a JSON rule
      lands on a string, a number or a boolean. */
  predicate StepKeeps(step: Step, vars: map<string, string>, world: World, n: nat, index: string -> int) {
    Perform(step, vars, world, n, index).Ok? ==>
      forall rule :: rule in step.extract ==> !Take(rule, world(n, Rendered(step, vars).value).response, index).Dropped?
  }

  /** The same along the run: it is asked of the answers to the requests that are sent, and of no others. */
  predicate StepsKeep(steps: seq<Step>, vars: map<string, string>, world: World, n: nat, index: string -> int)
    decreases |steps|
  {
    steps == [] ||
    (var r := Perform(steps[0], vars, world, n, index);
     StepKeeps(steps[0], vars, world, n, index)
     && (r.Ok? ==> StepsKeep(steps[1..], vars + r.value, world, n + 1, index)))
  }

  predicate RunKeeps(p: Pack, session: map<string, string>, creds: Credentials, site: string, world: World,
      index: string -> int) {
    var vars := StartVars(session, creds, site);
    if LogsIn(p, creds) then
      var login := LogIn(p.login.value.step, vars, world, index);
      StepKeeps(p.login.value.step, vars, world, 0, index)
      && (login.Ok? ==> StepsKeep(p.read, vars + login.value, world, 1, index))
    else StepsKeep(p.read, vars, world, 0, index)
  }

  lemma AsksBound(step: Step, known: set<string>, vars: map<string, string>)
    requires Asks(step) <= known + TEMPLATE_VARS && known <= vars.Keys && Started(vars)
    requires "token" in Asks(step) ==> "token" in vars
    ensures Asks(step) <= vars.Keys
  {
    forall name | name in Asks(step) ensures name in vars.Keys {
    }
  }

  lemma {:induction false} ScopedNeverMisses(steps: seq<Step>, known: set<string>, vars: map<string, string>,
      got: map<string, string>, world: World, n: nat, index: string -> int)
    requires StepsInScope(steps, known) && known <= vars.Keys && Started(vars) && TokenCovered(steps, vars.Keys)
    requires StepsKeep(steps, vars, world, n, index)
    ensures !Misses(RunSteps(steps, vars, got, world, n, index))
    decreases |steps|
  {
    if steps != [] {
      var step := steps[0];
      AsksBound(step, known, vars);
      match Perform(step, vars, world, n, index) {
        case Err(_) =>
        case Ok(values) =>
          KeptKeys(step.extract, world(n, Rendered(step, vars).value).response, index);
          assert (vars + values).Keys == vars.Keys + Fields(step.extract);
          ScopedNeverMisses(steps[1..], known + Fields(step.extract), vars + values, got + values, world, n + 1, index);
      }
    }
  }

  /** The token, where a step of a loaded pack uses it, is in the session or was extracted before. */
  predicate TokenThere(p: Pack, session: map<string, string>) {
    TokenCovered(p.read, session.Keys + LoginFields(p.login)) && (p.login.Some? && p.login.value.mode == "form" ==>
      ("token" in Asks(p.login.value.step) ==> "token" in session))
  }

  lemma {:induction false} TokenGrows(steps: seq<Step>, bound: set<string>, more: set<string>)
    requires TokenCovered(steps, bound) && bound <= more
    ensures TokenCovered(steps, more)
    decreases |steps|
  {
    if steps != [] {
      TokenGrows(steps[1..], bound + Fields(steps[0].extract), more + Fields(steps[0].extract));
    }
  }

  /** Everything that may always be used is there at the start, but for the token. */
  predicate Started(vars: map<string, string>) {
    forall name :: name in TEMPLATE_VARS && name != "token" ==> name in vars
  }

  lemma StartHas(session: map<string, string>, creds: Credentials, site: string)
    ensures Started(StartVars(session, creds, site)) && session.Keys <= StartVars(session, creds, site).Keys
  {
  }

  lemma ReadNeverMisses(p: Pack, session: map<string, string>, vars: map<string, string>, got: map<string, string>,
      world: World, n: nat, index: string -> int)
    requires InScope(p) && TokenThere(p, session) && StepsKeep(p.read, vars, world, n, index)
    requires Started(vars) && session.Keys <= vars.Keys && LoginFields(p.login) <= vars.Keys
    ensures !Misses(RunSteps(p.read, vars, got, world, n, index))
  {
    TokenGrows(p.read, session.Keys + LoginFields(p.login), vars.Keys);
    ScopedNeverMisses(p.read, LoginFields(p.login), vars, got, world, n, index);
  }

  lemma LoginBinds(step: Step, vars: map<string, string>, world: World, index: string -> int)
    requires StepKeeps(step, vars, world, 0, index) && LogIn(step, vars, world, index).Ok?
    ensures LogIn(step, vars, world, index).value.Keys == Fields(step.extract)
  {
    KeptKeys(step.extract, world(0, Rendered(step, vars).value).response, index);
  }

  lemma LoginNeverMisses(p: Pack, session: map<string, string>, vars: map<string, string>, world: World,
      index: string -> int)
    requires p.login.Some? && p.login.value.mode == "form" && InScope(p) && TokenThere(p, session) && Started(vars)
    requires session.Keys <= vars.Keys
    ensures LogIn(p.login.value.step, vars, world, index) != Err(MissingVariables)
  {
    var step := p.login.value.step;
    forall name | name in Asks(step) ensures name in vars.Keys {
      assert name in TEMPLATE_VARS;
    }
  }

  /** A loaded pack whose login is not skipped does not stop at a missing variable, if the token is there
      and every JSON rule that is applied lands on a value of a kind that is kept. */
  lemma LoadedNeverMisses(p: Pack, session: map<string, string>, creds: Credentials, site: string, world: World,
      index: string -> int)
    requires InScope(p) && TokenThere(p, session)
    requires p.login.Some? && p.login.value.mode == "form" ==> LogsIn(p, creds)
    requires RunKeeps(p, session, creds, site, world, index)
    ensures !Misses(Run(p, session, creds, site, world, index))
  {
    var vars := StartVars(session, creds, site);
    StartHas(session, creds, site);
    if LogsIn(p, creds) {
      var login := LogIn(p.login.value.step, vars, world, index);
      LoginNeverMisses(p, session, vars, world, index);
      if login.Ok? {
        LoginBinds(p.login.value.step, vars, world, index);
        ReadNeverMisses(p, session, vars + login.value, login.value, world, 1, index);
      }
    } else {
      ReadNeverMisses(p, session, vars, map[], world, 0, index);
    }
  }

  // ---------- Loaded packs that stop ----------

  function Get(body: string, extract: seq<Rule>): Step { Step("s", "u", "GET", "", body, map[], extract) }

  const ANY_LIBRARY := Library(_ => true, _ => Some("h"), _ => true)

  const BALANCE := Rule("balance", "status", "", "", 0)

  function PackOf(read: seq<Step>): Pack { Pack("p", "usd", ["h"], None, read) }

  lemma Trimmed()
    ensures Text.TrimSpace("p") == "p" && Text.TrimSpace("u") == "u" && Text.TrimSpace("d") == "d"
  {
  }

  function Slotted(name: string): string { "{" + name + "}" }

  lemma SlotNames(name: string)
    requires IsName(name)
    ensures Names(Slotted(name)) == {name}
  {
    var s := Slotted(name);
    LeadingExactly(s, name);
    assert s[..|name| + 2] == s && s[|name| + 2..] == "";
    assert Pieces(s) == [Slot(name)];
  }

  lemma GetAsks(body: string, extract: seq<Rule>)
    ensures Asks(Get(body, extract)) == Names(body)
    ensures (forall r :: r in extract ==> RuleOk(ANY_LIBRARY, r)) ==> ShapeOk(ANY_LIBRARY, ["h"], Get(body, extract))
  {
    Trimmed();
  }

  lemma BalanceOk()
    ensures RuleOk(ANY_LIBRARY, BALANCE) && "balance" in Fields([BALANCE])
  {
    assert BALANCE in [BALANCE];
  }

  lemma PackLoads(read: seq<Step>)
    requires read != [] && StepsInScope(read, {}) && "balance" in StepFields(read)
    requires forall i :: 0 <= i < |read| ==> ShapeOk(ANY_LIBRARY, ["h"], read[i])
    ensures IsValid(ANY_LIBRARY, PackOf(read))
  {
    Trimmed();
  }

  lemma OneStep(step: Step, bound: set<string>, name: string)
    requires name in Asks(step) && name !in bound
    ensures !Certain([step], bound)
  {
  }

  lemma OneMissing(name: string, session: map<string, string>, creds: Credentials, site: string, index: string -> int)
    requires IsName(name) && name in TEMPLATE_VARS && name !in StartVars(session, creds, site)
    ensures var p := PackOf([Get(Slotted(name), [BALANCE])]);
      IsValid(ANY_LIBRARY, p) && !NeverMisses(p, session, creds, site, index)
  {
    var step := Get(Slotted(name), [BALANCE]);
    SlotNames(name);
    BalanceOk();
    GetAsks(Slotted(name), [BALANCE]);
    assert [step][1..] == [];
    PackLoads([step]);
    OneStep(step, StartVars(session, creds, site).Keys, name);
    NeverMissesExactly(ANY_LIBRARY, PackOf([step]), session, creds, site, index);
  }

  /** Reads a balance with the access token and has no login to get one: it loads, as checking allows the
      token everywhere, and stops in an empty session. */
  lemma TokenPackMisses(creds: Credentials, site: string, index: string -> int)
    ensures var p := PackOf([Get(Slotted("token"), [BALANCE])]);
      IsValid(ANY_LIBRARY, p) && !NeverMisses(p, map[], creds, site, index)
  {
    OneMissing("token", map[], creds, site, index);
  }

  lemma TwoSteps(first: Step, second: Step, bound: set<string>, name: string)
    requires name in Asks(second) && name !in bound && Sure(first.extract) == {}
    ensures !Certain([first, second], bound)
  {
    assert [first, second][1..] == [second];
    OneStep(second, bound + Sure(first.extract), name);
  }

  lemma TwoStepsLoad(first: Step, second: Step)
    requires ShapeOk(ANY_LIBRARY, ["h"], first) && ShapeOk(ANY_LIBRARY, ["h"], second)
    requires Asks(first) == {} && Asks(second) <= Fields(first.extract) && "balance" in Fields(second.extract)
    ensures IsValid(ANY_LIBRARY, PackOf([first, second]))
  {
    assert [first, second][1..] == [second] && [second][1..] == [];
    PackLoads([first, second]);
  }

  /** Takes a value from the first reply and asks for it in the second step: it loads, and stops when
      the value turns out to be an object. */
  lemma ValuePackMisses(name: string, session: map<string, string>, creds: Credentials, site: string,
      index: string -> int)
    requires FieldOk(name) && name !in StartVars(session, creds, site)
    ensures var p := PackOf([Get("", [Rule(name, "json", "d", "", 0)]), Get(Slotted(name), [BALANCE])]);
      IsValid(ANY_LIBRARY, p) && !NeverMisses(p, session, creds, site, index)
  {
    var rule := Rule(name, "json", "d", "", 0);
    var first, second := Get("", [rule]), Get(Slotted(name), [BALANCE]);
    Trimmed();
    GetAsks("", [rule]);
    GetAsks(Slotted(name), [BALANCE]);
    SlotNames(name);
    BalanceOk();
    assert rule in [rule] && Sure([rule]) == {};
    TwoStepsLoad(first, second);
    TwoSteps(first, second, StartVars(session, creds, site).Keys, name);
    NeverMissesExactly(ANY_LIBRARY, PackOf([first, second]), session, creds, site, index);
  }

  // ---------- From variables to an account ----------

  /** The figures of an account; without a balance, what is left of the quota stands for it. */
  datatype Account = Account(balance: Option<real>, used: Option<real>, quota: Option<real>)

  function Figure(vars: map<string, string>, field: string, parse: string -> Option<real>): Option<real> {
    if field in vars then parse(vars[field]) else None
  }

  /** Used and quota as they parse; the balance as it parses, or what is left of the quota, or none. */
  ghost predicate AccountOf(vars: map<string, string>, parse: string -> Option<real>, a: Account) {
    && a.used == Figure(vars, "used", parse) && a.quota == Figure(vars, "quota", parse)
    && (Figure(vars, "balance", parse).Some? ==> a.balance == Figure(vars, "balance", parse))
    && (Figure(vars, "balance", parse).None? && a.quota.Some? ==>
          a.balance == Some(a.quota.value - if a.used.Some? then a.used.value else 0.0))
    && (Figure(vars, "balance", parse).None? && a.quota.None? ==> a.balance == None)
    && (IsOk(a) <==> Figure(vars, "balance", parse).Some? || Figure(vars, "quota", parse).Some?)
  }

  method ApplyFields(vars: map<string, string>, parse: string -> Option<real>) returns (a: Account)
    ensures AccountOf(vars, parse, a)
  {
    a := Account(Figure(vars, "balance", parse), Figure(vars, "used", parse), Figure(vars, "quota", parse));
    if a.balance.None? && a.quota.Some? {
      var used := 0.0;
      if a.used.Some? {
        used := a.used.value;
      }
      a := a.(balance := Some(a.quota.value - used));
    }
  }

  predicate IsOk(a: Account) { a.balance.Some? || a.quota.Some? }

  // ---------- One run ----------

  /** Renders a step; a name without a value refuses it. */
  method RenderStep(step: Step, vars: map<string, string>) returns (request: Option<Request>)
    ensures request == Rendered(step, vars)
  {
    var body := RenderTemplate(step.body, vars);
    HeadersExactly(step, vars);
    if body.Lacks? || exists k :: k in step.headers && Render(step.headers[k], vars).Lacks? {
      return None;
    }
    var headers := map k | k in step.headers :: Render(step.headers[k], vars).text;
    forall k | k in step.headers ensures headers[k] == Filled(Pieces(step.headers[k]), vars) {
    }
    SameHeaders(headers, map k | k in step.headers :: Filled(Pieces(step.headers[k]), vars));
    request := Some(Request(step.verb, step.url, headers, step.bodyType, body.text));
  }

  lemma SameHeaders(m: map<string, string>, n: map<string, string>)
    requires m.Keys == n.Keys && forall k :: k in m.Keys ==> m[k] == n[k]
    ensures m == n
  {
    forall k | k in m.Keys ensures m[k] == n[k] {
    }
  }

  lemma HeadersExactly(step: Step, vars: map<string, string>)
    ensures Asks(step) <= vars.Keys <==>
      Render(step.body, vars).Rendered? && forall k :: k in step.headers ==> Render(step.headers[k], vars).Rendered?
  {
    RenderExactly(step.body, vars);
    forall k | k in step.headers
      ensures Render(step.headers[k], vars).Rendered? <==> Names(step.headers[k]) <= vars.Keys
    {
      RenderExactly(step.headers[k], vars);
    }
    if Asks(step) <= vars.Keys {
      forall k, name | k in step.headers && name in Names(step.headers[k]) ensures name in vars.Keys {
        assert name in Asks(step);
      }
    }
  }

  method RunStep(step: Step, vars: map<string, string>, world: World, n: nat, index: string -> int)
      returns (r: Result<map<string, string>>)
    ensures r == Perform(step, vars, world, n, index)
  {
    var request := RenderStep(step, vars);
    if request.None? {
      return Err(MissingVariables);
    }
    var reply := DoRequest(world(n, request.value));
    if reply.Err? {
      return Err(reply.failure);
    }
    var values := ExtractFields(step.extract, reply.value, index);
    r := if values.None? then Err(NotExtracted) else Ok(values.value);
  }

  method RunLogin(step: Step, vars: map<string, string>, world: World, index: string -> int)
      returns (r: Result<map<string, string>>)
    ensures r == LogIn(step, vars, world, index)
  {
    r := RunStep(step, vars, world, 0, index);
    if r.Ok? && r.value == map[] && !world(0, Rendered(step, vars).value).response.hasCookies {
      r := Err(NoSession);
    }
  }

  class Session {
    var vars: map<string, string>

    /** Runs a pack: the session keeps what was extracted when every step went through, and only then.
        The refresh of a token after a 401 is not there to be run: no such reply reaches the loop. */
    method RunVia(p: Pack, creds: Credentials, site: string, world: World, index: string -> int,
        parse: string -> Option<real>) returns (o: Outcome, a: Account)
      modifies this
      ensures var run := Run(p, old(vars), creds, site, world, index);
        && o.vars == run.vars
        && (run.stopped.Some? ==> o == run && vars == old(vars) && a == Account(None, None, None))
        && (run.stopped.None? ==>
              && vars == old(vars) + run.vars
              && AccountOf(run.vars, parse, a)
              && o.stopped == if IsOk(a) then None else Some(NoBalance))
    {
      a := Account(None, None, None);
      var bound, got, n := StartVars(vars, creds, site), map[], 0;
      if p.login.Some? && p.login.value.mode == "form" {
        if !(Text.TrimSpace(creds.username) == "" && Text.TrimSpace(creds.password) == "") {
          var login := RunLogin(p.login.value.step, bound, world, index);
          if login.Err? {
            return Outcome(got, Some(login.failure)), a;
          }
          bound, got, n := bound + login.value, login.value, 1;
        }
      }
      o := RunAllSteps(p.read, bound, got, world, n, index);
      if o.stopped.Some? {
        return;
      }
      a := ApplyFields(o.vars, parse);
      vars := vars + o.vars;
      if !IsOk(a) {
        o := o.(stopped := Some(NoBalance));
      }
    }
  }

  ghost predicate Leads(steps: seq<Step>, vars: map<string, string>, got: map<string, string>, world: World, n: nat,
      index: string -> int, whole: Outcome) {
    RunSteps(steps, vars, got, world, n, index) == whole
  }

  /** The next step of a run that comes out as `whole`. */
  method RunNext(steps: seq<Step>, vars: map<string, string>, got: map<string, string>, world: World, n: nat,
      index: string -> int,
      ghost whole: Outcome) returns (stopped: Option<Failure>, bound: map<string, string>, kept: map<string, string>)
    requires steps != [] && Leads(steps, vars, got, world, n, index, whole)
    ensures stopped.Some? ==> whole == Outcome(kept, stopped)
    ensures stopped.None? ==> Leads(steps[1..], bound, kept, world, n + 1, index, whole)
  {
    var r := RunStep(steps[0], vars, world, n, index);
    if r.Err? {
      return Some(r.failure), vars, got;
    }
    return None, vars + r.value, got + r.value;
  }

  lemma LeadsToEnd(vars: map<string, string>, got: map<string, string>, world: World, n: nat, index: string -> int,
      whole: Outcome)
    requires Leads([], vars, got, world, n, index, whole)
    ensures whole == Outcome(got, None)
  {
  }

  method RunAllSteps(steps: seq<Step>, vars: map<string, string>, got: map<string, string>, world: World, first: nat,
      index: string -> int) returns (o: Outcome)
    ensures o == RunSteps(steps, vars, got, world, first, index)
  {
    ghost var whole := RunSteps(steps, vars, got, world, first, index);
    assert Leads(steps, vars, got, world, first, index, whole);
    var rest, bound, kept, n := steps, vars, got, first;
    while rest != []
      invariant Leads(rest, bound, kept, world, n, index, whole)
      decreases |rest|
    {
      var stopped;
      stopped, bound, kept := RunNext(rest, bound, kept, world, n, index, whole);
      if stopped.Some? {
        return Outcome(kept, stopped);
      }
      rest, n := rest[1..], n + 1;
    }
    LeadsToEnd(bound, kept, world, n, index, whole);
    o := Outcome(kept, None);
  }
}
