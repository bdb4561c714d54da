/** Collection packs: a declared login and a list of read steps with templates. Loading one checks,
    among other things, that every template name is known where it is used. */
module CollectorPack {
  import opened Common
  import opened Template
  import Text

  /** One value to take from a response. A group number selects a part of a match. */
  datatype Rule = Rule(field: string, source: string, path: string, regex: string, group: nat)

  datatype Step = Step(name: string, url: string, verb: string, bodyType: string, body: string,
                       headers: map<string, string>, extract: seq<Rule>)

  datatype Login = Login(mode: string, step: Step)

  datatype Pack = Pack(name: string, units: string, hosts: seq<string>, login: Option<Login>, read: seq<Step>)

  /** What libraries decide: host name syntax, where an address leads (for an http or https address,
      its host in lower case), and whether a regular expression compiles. */
  datatype Library = Library(hostOk: string -> bool, target: string -> Option<string>, compiles: string -> bool)

  /** Names a template may always use. */
  const TEMPLATE_VARS: set<string> := {"username", "password", "captcha", "otp", "site", "token"}

  function Fields(rules: seq<Rule>): set<string> { set r | r in rules :: r.field }

  predicate TemplateOk(tmpl: string, known: set<string>) { Names(tmpl) <= known + TEMPLATE_VARS }

  /** Names a step asks for. */
  function Asks(step: Step): set<string> {
    Names(step.body) + set k, name | k in step.headers && name in Names(step.headers[k]) :: name
  }

  predicate TemplatesOk(step: Step, known: set<string>) {
    (forall k :: k in step.headers ==> TemplateOk(step.headers[k], known)) && TemplateOk(step.body, known)
  }

  lemma TemplatesExactly(step: Step, known: set<string>)
    ensures TemplatesOk(step, known) <==> Asks(step) <= known + TEMPLATE_VARS
  {
    if Asks(step) <= known + TEMPLATE_VARS {
      forall k | k in step.headers ensures TemplateOk(step.headers[k], known) {
        forall name | name in Names(step.headers[k]) ensures name in Asks(step) {
        }
      }
    }
  }

  predicate FieldOk(name: string) { IsName(name) && |name| <= 32 }

  predicate RuleOk(lib: Library, rule: Rule) {
    && FieldOk(rule.field)
    && rule.source in ["json", "regex", "header", "status"]
    && (rule.source in ["json", "header"] ==> Text.TrimSpace(rule.path) != "")
    && (rule.source == "regex" ==> lib.compiles(rule.regex))
  }

  predicate UrlOk(lib: Library, hosts: seq<string>, url: string) {
    var trimmed := Text.TrimSpace(url);
    trimmed != "" && lib.target(trimmed).Some? && lib.target(trimmed).value in hosts
  }

  function Clean(step: Step, verb: string): Step {
    var v := Text.ToUpper(Text.TrimSpace(step.verb));
    step.(verb := if v == "" then verb else v, bodyType := Text.ToLower(Text.TrimSpace(step.bodyType)))
  }

  /** A request as declared, cleaned up: its verb, address and templates. */
  predicate RequestOk(lib: Library, hosts: seq<string>, step: Step, known: set<string>) {
    && step.verb in ["GET", "POST"] && step.bodyType in ["", "json", "form"]
    && UrlOk(lib, hosts, step.url) && TemplatesOk(step, known)
    && forall r :: r in step.extract ==> RuleOk(lib, r)
  }

  function CleanMode(login: Login): string {
    var mode := Text.ToLower(Text.TrimSpace(login.mode));
    if mode == "" then "form" else mode
  }

  function CleanLogin(login: Login): Login {
    Login(CleanMode(login), if CleanMode(login) == "form" then Clean(login.step, "POST") else login.step)
  }

  /** A form login is a request of its own; an interactive one is at most the address of a page. */
  predicate LoginOk(lib: Library, hosts: seq<string>, login: Login) {
    match login.mode
    case "form" => RequestOk(lib, hosts, login.step, {})
    case "interactive" => login.step.url != "" ==> UrlOk(lib, hosts, login.step.url)
    case _ => false
  }

  /** What the login makes known to the steps. */
  function LoginFields(login: Option<Login>): set<string> {
    if login.Some? && login.value.mode == "form" then Fields(login.value.step.extract) else {}
  }

  /** Every step uses names that may always be used, or that came from the login or a step before it. */
  predicate StepsInScope(steps: seq<Step>, known: set<string>) {
    steps == [] || (Asks(steps[0]) <= known + TEMPLATE_VARS
      && StepsInScope(steps[1..], known + Fields(steps[0].extract)))
  }

  function StepFields(steps: seq<Step>): set<string> {
    if steps == [] then {} else Fields(steps[0].extract) + StepFields(steps[1..])
  }

  predicate ShapeOk(lib: Library, hosts: seq<string>, step: Step) {
    && step.verb in ["GET", "POST"] && step.bodyType in ["", "json", "form"]
    && UrlOk(lib, hosts, step.url)
    && forall r :: r in step.extract ==> RuleOk(lib, r)
  }

  function StepName(step: Step, i: nat): Step {
    if step.name == "" then step.(name := "step " + Text.Digits(i + 1)) else step
  }

  function CleanSteps(steps: seq<Step>): (clean: seq<Step>)
    ensures |clean| == |steps|
    ensures forall i :: 0 <= i < |steps| ==> clean[i] == Clean(StepName(steps[i], i), "GET")
  {
    seq(|steps|, i requires 0 <= i < |steps| => Clean(StepName(steps[i], i), "GET"))
  }

  function CleanHosts(hosts: seq<string>): (clean: seq<string>)
    ensures |clean| == |hosts|
    ensures forall i :: 0 <= i < |hosts| ==> clean[i] == Text.ToLower(Text.TrimSpace(hosts[i]))
  {
    seq(|hosts|, i requires 0 <= i < |hosts| => Text.ToLower(Text.TrimSpace(hosts[i])))
  }

  function CleanPack(p: Pack): Pack {
    p.(units := if p.units == "" then "usd" else p.units,
       hosts := CleanHosts(p.hosts),
       login := if p.login.Some? then Some(CleanLogin(p.login.value)) else None,
       read := CleanSteps(p.read))
  }

  /** A step that was cleaned up: the verb in upper case, or the usual one when there is none, and the kind of
      body in lower case; what it sends and takes is untouched. */
  ghost predicate StepCleaned(before: Step, after: Step, verb: string) {
    && after.url == before.url && after.body == before.body && after.headers == before.headers
    && after.extract == before.extract && after.bodyType == Text.ToLower(Text.TrimSpace(before.bodyType))
    && (Text.TrimSpace(before.verb) == "" ==> after.verb == verb)
    && (Text.TrimSpace(before.verb) != "" ==> after.verb == Text.ToUpper(Text.TrimSpace(before.verb)))
  }

  /** What loading makes of a pack: nothing that is read, sent or taken changes. */
  ghost predicate PackCleaned(p: Pack, clean: Pack) {
    && clean.name == p.name && (p.units != "" ==> clean.units == p.units) && (p.units == "" ==> clean.units == "usd")
    && |clean.hosts| == |p.hosts|
    && (forall i :: 0 <= i < |p.hosts| ==> clean.hosts[i] == Text.ToLower(Text.TrimSpace(p.hosts[i])))
    && |clean.read| == |p.read|
    && (forall i :: 0 <= i < |p.read| ==> StepCleaned(p.read[i], clean.read[i], "GET"))
    && (clean.login.Some? <==> p.login.Some?)
    && (p.login.Some? && clean.login.Some? ==>
          var before, after := p.login.value, clean.login.value;
          && (Text.TrimSpace(before.mode) == "" ==> after.mode == "form")
          && (Text.TrimSpace(before.mode) != "" ==> after.mode == Text.ToLower(Text.TrimSpace(before.mode)))
          && (after.mode == "form" ==> StepCleaned(before.step, after.step, "POST"))
          && (after.mode != "form" ==> after.step == before.step))
  }

  lemma TrimmedEmpty(s: string)
    ensures Text.TrimSpace(s) == "" <==> Text.ToUpper(Text.TrimSpace(s)) == ""
    ensures Text.TrimSpace(s) == "" <==> Text.ToLower(Text.TrimSpace(s)) == ""
  {
    assert |Text.ToUpper(Text.TrimSpace(s))| == |Text.TrimSpace(s)| == |Text.ToLower(Text.TrimSpace(s))|;
  }

  lemma CleanedAsPromised(p: Pack)
    ensures PackCleaned(p, CleanPack(p))
  {
    forall i | 0 <= i < |p.read| ensures StepCleaned(p.read[i], CleanPack(p).read[i], "GET") {
      TrimmedEmpty(p.read[i].verb);
    }
    if p.login.Some? {
      TrimmedEmpty(p.login.value.mode);
      TrimmedEmpty(p.login.value.step.verb);
    }
  }

  lemma CleanTwice(step: Step, verb: string)
    requires verb in {"GET", "POST"}
    ensures Clean(Clean(step, verb), verb) == Clean(step, verb)
  {
    Text.CasedTwice(step.verb);
    Text.CasedTwice(step.bodyType);
    assert Text.ToUpper(Text.TrimSpace("GET")) == "GET" && Text.ToUpper(Text.TrimSpace("POST")) == "POST";
  }

  lemma ModeTwice(login: Login)
    ensures CleanMode(CleanLogin(login)) == CleanMode(login)
  {
    Text.CasedTwice(login.mode);
    assert Text.ToLower(Text.TrimSpace("form")) == "form";
  }

  /** A cleaned-up pack is cleaned up: loading it again is accepted or refused as before and changes nothing. */
  lemma CleanPackTwice(p: Pack)
    ensures CleanPack(CleanPack(p)) == CleanPack(p)
  {
    var c := CleanPack(p);
    forall i | 0 <= i < |p.hosts| ensures CleanHosts(c.hosts)[i] == c.hosts[i] {
      Text.CasedTwice(p.hosts[i]);
    }
    assert CleanHosts(c.hosts) == c.hosts;
    forall i | 0 <= i < |p.read| ensures CleanSteps(c.read)[i] == c.read[i] {
      CleanTwice(StepName(p.read[i], i), "GET");
      assert StepName(c.read[i], i) == c.read[i];
    }
    assert CleanSteps(c.read) == c.read;
    if p.login.Some? {
      ModeTwice(p.login.value);
      CleanTwice(p.login.value.step, "POST");
    }
  }

  /** Static scoping of a whole pack. */
  predicate InScope(p: Pack) {
    && (p.login.Some? && p.login.value.mode == "form" ==> Asks(p.login.value.step) <= TEMPLATE_VARS)
    && StepsInScope(p.read, LoginFields(p.login))
  }

  /** A pack that loads, looked at after the clean-up: every address stays on the declared hosts, every
      name is known where it is used, and there is something to read a balance from. */
  predicate IsValid(lib: Library, p: Pack) {
    && Text.TrimSpace(p.name) != ""
    && p.units in ["usd", "points"]
    && p.hosts != [] && (forall i :: 0 <= i < |p.hosts| ==> lib.hostOk(p.hosts[i]))
    && (p.login.Some? ==> LoginOk(lib, p.hosts, p.login.value))
    && p.read != [] && (forall i :: 0 <= i < |p.read| ==> ShapeOk(lib, p.hosts, p.read[i]))
    && InScope(p)
    && ("balance" in LoginFields(p.login) + StepFields(p.read) || "quota" in LoginFields(p.login) + StepFields(p.read))
  }

  /** A rule loads when its field is a name of at most 32 characters and its source has what it needs. */
  lemma RuleInFull(lib: Library, rule: Rule)
    ensures RuleOk(lib, rule) <==>
      && IsName(rule.field) && 1 <= |rule.field| <= 32
      && (rule.source == "status" || (rule.source == "regex" && lib.compiles(rule.regex))
          || (rule.source == "json" && Text.TrimSpace(rule.path) != "")
          || (rule.source == "header" && Text.TrimSpace(rule.path) != ""))
  {
  }

  /** The address leads to a declared host. */
  predicate LeadsToHost(lib: Library, hosts: seq<string>, url: string) {
    Text.TrimSpace(url) != "" && exists i :: 0 <= i < |hosts| && lib.target(Text.TrimSpace(url)) == Some(hosts[i])
  }

  /** A form login loads like a request that knows nothing yet; an interactive one when its page, if it has one,
      is on a declared host; no other login does. */
  lemma LoginInFull(lib: Library, hosts: seq<string>, login: Login)
    ensures login.mode == "form" ==>
      (LoginOk(lib, hosts, login) <==>
        && login.step.verb in ["GET", "POST"] && login.step.bodyType in ["", "json", "form"]
        && LeadsToHost(lib, hosts, login.step.url) && Asks(login.step) <= TEMPLATE_VARS
        && forall r :: r in login.step.extract ==> RuleOk(lib, r))
    ensures login.mode == "interactive" ==>
      (LoginOk(lib, hosts, login) <==> login.step.url == "" || LeadsToHost(lib, hosts, login.step.url))
    ensures login.mode !in {"form", "interactive"} ==> !LoginOk(lib, hosts, login)
  {
    LoginScope(lib, hosts, login);
    LeadsExactly(lib, hosts, login.step.url);
  }

  lemma LeadsExactly(lib: Library, hosts: seq<string>, url: string)
    ensures UrlOk(lib, hosts, url) <==> LeadsToHost(lib, hosts, url)
  {
    if UrlOk(lib, hosts, url) {
      var host := lib.target(Text.TrimSpace(url)).value;
      var i :| 0 <= i < |hosts| && hosts[i] == host;
      assert lib.target(Text.TrimSpace(url)) == Some(hosts[i]);
    }
  }

  lemma LoginScope(lib: Library, hosts: seq<string>, login: Login)
    ensures login.mode == "form" ==>
      (LoginOk(lib, hosts, login) <==> ShapeOk(lib, hosts, login.step) && Asks(login.step) <= TEMPLATE_VARS)
  {
    TemplatesExactly(login.step, {});
    assert {} + TEMPLATE_VARS == TEMPLATE_VARS;
  }

  /** Checks the login and says which fields it makes known. */
  method ValidateLogin(lib: Library, login: Login, hosts: seq<string>)
      returns (ok: bool, clean: Login, extracted: set<string>)
    ensures clean == CleanLogin(login)
    ensures ok <==> LoginOk(lib, hosts, clean)
    ensures ok ==> extracted == LoginFields(Some(clean))
  {
    clean, extracted := Login(CleanMode(login), login.step), {};
    if clean.mode == "form" {
      clean := clean.(step := Clean(login.step, "POST"));
      if !UrlOk(lib, hosts, clean.step.url) || clean.step.verb !in ["GET", "POST"]
        || clean.step.bodyType !in ["", "json", "form"] {
        return false, clean, extracted;
      }
      if !TemplatesOk(clean.step, extracted) {
        return false, clean, extracted;
      }
      for i := 0 to |clean.step.extract|
        invariant forall k :: 0 <= k < i ==> RuleOk(lib, clean.step.extract[k])
        invariant extracted == Fields(clean.step.extract[..i])
      {
        if !RuleOk(lib, clean.step.extract[i]) {
          return false, clean, extracted;
        }
        FieldsSnoc(clean.step.extract, i);
        extracted := extracted + {clean.step.extract[i].field};
      }
      assert clean.step.extract[..|clean.step.extract|] == clean.step.extract;
      return true, clean, extracted;
    }
    if clean.mode == "interactive" {
      ok := clean.step.url == "" || UrlOk(lib, hosts, clean.step.url);
      return;
    }
    ok := false;
  }

  lemma FieldsSnoc(rules: seq<Rule>, i: nat)
    requires i < |rules|
    ensures Fields(rules[..i + 1]) == Fields(rules[..i]) + {rules[i].field}
  {
    assert rules[..i + 1] == rules[..i] + [rules[i]];
  }

  /** Checks one cleaned-up read step against what is known so far. */
  method ValidateStep(lib: Library, hosts: seq<string>, step: Step, known: set<string>)
      returns (ok: bool, extracted: set<string>)
    ensures ok <==> ShapeOk(lib, hosts, step) && Asks(step) <= known + TEMPLATE_VARS
    ensures ok ==> extracted == known + Fields(step.extract)
  {
    extracted := known;
    TemplatesExactly(step, known);
    if step.verb !in ["GET", "POST"] || step.bodyType !in ["", "json", "form"] || !UrlOk(lib, hosts, step.url)
      || !TemplatesOk(step, known)
    {
      return false, extracted;
    }
    for i := 0 to |step.extract|
      invariant forall k :: 0 <= k < i ==> RuleOk(lib, step.extract[k])
      invariant extracted == known + Fields(step.extract[..i])
    {
      if !RuleOk(lib, step.extract[i]) {
        return false, extracted;
      }
      FieldsSnoc(step.extract, i);
      extracted := extracted + {step.extract[i].field};
    }
    assert step.extract[..|step.extract|] == step.extract;
    ok := true;
  }

  lemma ScopeFrom(steps: seq<Step>, i: nat, known: set<string>)
    requires i < |steps|
    ensures StepsInScope(steps[i..], known) <==>
      Asks(steps[i]) <= known + TEMPLATE_VARS && StepsInScope(steps[i + 1..], known + Fields(steps[i].extract))
    ensures StepFields(steps[i..]) == Fields(steps[i].extract) + StepFields(steps[i + 1..])
  {
    assert steps[i..][1..] == steps[i + 1..];
  }

  method ValidateSteps(lib: Library, hosts: seq<string>, steps: seq<Step>, first: set<string>)
      returns (ok: bool, extracted: set<string>)
    ensures ok <==> (forall i :: 0 <= i < |steps| ==> ShapeOk(lib, hosts, steps[i])) && StepsInScope(steps, first)
    ensures ok ==> extracted == first + StepFields(steps)
  {
    extracted := first;
    for i := 0 to |steps|
      invariant forall k :: 0 <= k < i ==> ShapeOk(lib, hosts, steps[k])
      invariant StepsInScope(steps, first) <==> StepsInScope(steps[i..], extracted)
      invariant extracted + StepFields(steps[i..]) == first + StepFields(steps)
    {
      ScopeFrom(steps, i, extracted);
      ok, extracted := ValidateStep(lib, hosts, steps[i], extracted);
      if !ok {
        return;
      }
    }
    ok := true;
  }

  /** Loads a pack: the cleaned-up pack when it is valid, nothing otherwise. */
  method Validate(lib: Library, p: Pack) returns (r: Option<Pack>)
    ensures r.Some? <==> IsValid(lib, CleanPack(p))
    ensures r.Some? ==> r.value == CleanPack(p) && PackCleaned(p, r.value)
  {
    var clean := CleanPack(p);
    CleanedAsPromised(p);
    if Text.TrimSpace(p.name) == "" || p.units !in ["", "usd", "points"] || p.hosts == [] {
      return None;
    }
    if exists i :: 0 <= i < |p.hosts| && !lib.hostOk(clean.hosts[i]) {
      return None;
    }
    var ok, extracted := true, {};
    if p.login.Some? {
      var login;
      ok, login, extracted := ValidateLogin(lib, p.login.value, clean.hosts);
      LoginScope(lib, clean.hosts, login);
      if !ok {
        return None;
      }
    }
    if p.read == [] {
      return None;
    }
    ok, extracted := ValidateSteps(lib, clean.hosts, clean.read, extracted);
    if !ok || ("balance" !in extracted && "quota" !in extracted) {
      return None;
    }
    r := Some(clean);
  }
}
