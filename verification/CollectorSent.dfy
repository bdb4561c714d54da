/** What a run sends and where it stops, told request by request: which value stands for a name, what is
    kept, and why a run ends. Nothing here looks at the variables the interpreter carries along. */
module CollectorSent {
  import opened Common
  import Template
  import opened CollectorPack
  import opened CollectorRun
  import Text

  /** One request, and what was taken from the answer when the step went through. */
  datatype Exchange = Exchange(request: Request, values: Option<map<string, string>>)

  function ValuesOf(r: Result<map<string, string>>): Option<map<string, string>> {
    match r
    case Ok(values) => Some(values)
    case Err(_) => None
  }

  /** The exchanges of some steps; a step that cannot be rendered sends nothing. */
  function Trace(steps: seq<Step>, vars: map<string, string>, world: World, n: nat, index: string -> int): seq<Exchange>
    decreases |steps|
  {
    if steps == [] || Rendered(steps[0], vars).None? then []
    else
      var r := Perform(steps[0], vars, world, n, index);
      [Exchange(Rendered(steps[0], vars).value, ValuesOf(r))]
      + if r.Ok? then Trace(steps[1..], vars + r.value, world, n + 1, index) else []
  }

  /** The exchanges of a run. */
  function RunTrace(p: Pack, session: map<string, string>, creds: Credentials, site: string, world: World,
      index: string -> int): seq<Exchange>
  {
    var vars := StartVars(session, creds, site);
    if !LogsIn(p, creds) then Trace(p.read, vars, world, 0, index)
    else
      var step := p.login.value.step;
      if Rendered(step, vars).None? then []
      else
        var r := LogIn(step, vars, world, index);
        [Exchange(Rendered(step, vars).value, ValuesOf(r))]
        + if r.Ok? then Trace(p.read, vars + r.value, world, 1, index) else []
  }

  // ---------- Nothing else is sent ----------

  /** Two worlds that answer the same to what is sent. */
  ghost predicate AgreeOn(tr: seq<Exchange>, world: World, other: World, n: nat) {
    forall i: nat :: i < |tr| ==> world(n + i, tr[i].request) == other(n + i, tr[i].request)
  }

  lemma AgreeOnRest(e: Exchange, rest: seq<Exchange>, world: World, other: World, n: nat)
    requires AgreeOn([e] + rest, world, other, n)
    ensures world(n, e.request) == other(n, e.request) && AgreeOn(rest, world, other, n + 1)
  {
    var tr := [e] + rest;
    assert tr[0] == e && n + 0 == n;
    forall i: nat | i < |rest| ensures world(n + 1 + i, rest[i].request) == other(n + 1 + i, rest[i].request) {
      assert tr[i + 1] == rest[i] && n + (i + 1) == n + 1 + i;
    }
  }

  lemma {:induction false} StepsSeeOnlyAnswers(steps: seq<Step>, vars: map<string, string>, got: map<string, string>,
      world: World, other: World, n: nat, index: string -> int)
    requires AgreeOn(Trace(steps, vars, world, n, index), world, other, n)
    ensures RunSteps(steps, vars, got, world, n, index) == RunSteps(steps, vars, got, other, n, index)
    decreases |steps|
  {
    if steps != [] && Rendered(steps[0], vars).Some? {
      var r := Perform(steps[0], vars, world, n, index);
      var rest := if r.Ok? then Trace(steps[1..], vars + r.value, world, n + 1, index) else [];
      AgreeOnRest(Exchange(Rendered(steps[0], vars).value, ValuesOf(r)), rest, world, other, n);
      if r.Ok? {
        StepsSeeOnlyAnswers(steps[1..], vars + r.value, got + r.value, world, other, n + 1, index);
      }
    }
  }

  /** The outcome of a run depends on nothing but the answers to the requests of its trace. */
  lemma OnlySentMatters(p: Pack, session: map<string, string>, creds: Credentials, site: string, world: World,
      other: World, index: string -> int)
    requires AgreeOn(RunTrace(p, session, creds, site, world, index), world, other, 0)
    ensures Run(p, session, creds, site, world, index) == Run(p, session, creds, site, other, index)
  {
    var vars := StartVars(session, creds, site);
    if !LogsIn(p, creds) {
      StepsSeeOnlyAnswers(p.read, vars, map[], world, other, 0, index);
    } else if Rendered(p.login.value.step, vars).Some? {
      var step := p.login.value.step;
      var r := LogIn(step, vars, world, index);
      var rest := if r.Ok? then Trace(p.read, vars + r.value, world, 1, index) else [];
      AgreeOnRest(Exchange(Rendered(step, vars).value, ValuesOf(r)), rest, world, other, 0);
      if r.Ok? {
        StepsSeeOnlyAnswers(p.read, vars + r.value, r.value, world, other, 1, index);
      }
    }
  }

  // ---------- What a name stands for ----------

  /** What is bound before exchange `i`. */
  function Bindings(vars: map<string, string>, tr: seq<Exchange>, i: nat): map<string, string>
    requires i <= |tr|
  {
    if i == 0 then vars
    else if tr[i - 1].values.Some? then Bindings(vars, tr, i - 1) + tr[i - 1].values.value
    else Bindings(vars, tr, i - 1)
  }

  lemma {:induction false} BindingsShift(vars: map<string, string>, e: Exchange, rest: seq<Exchange>, i: nat)
    requires i <= |rest| && e.values.Some?
    ensures Bindings(vars, [e] + rest, i + 1) == Bindings(vars + e.values.value, rest, i)
  {
    if i > 0 {
      BindingsShift(vars, e, rest, i - 1);
      assert ([e] + rest)[i] == rest[i - 1];
    } else {
      assert Bindings(vars, [e] + rest, 0) == vars && ([e] + rest)[0] == e;
    }
  }

  predicate Takes(tr: seq<Exchange>, j: nat, name: string) {
    j < |tr| && tr[j].values.Some? && name in tr[j].values.value
  }

  /** Exchange `j` is the last of the first `i` that took a value for the name. */
  ghost predicate TakenLast(tr: seq<Exchange>, i: nat, j: nat, name: string) {
    j < i && Takes(tr, j, name) && forall k: nat :: j < k < i ==> !Takes(tr, k, name)
  }

  ghost predicate NeverTaken(tr: seq<Exchange>, i: nat, name: string) {
    forall k: nat :: k < i ==> !Takes(tr, k, name)
  }

  /** The value a name is given at the start: the session's if it has one, else the site or the part of the
      credentials of that name. */
  predicate GivenAs(session: map<string, string>, creds: Credentials, site: string, name: string, value: string) {
    if name in session then value == session[name]
    else
      || (name == "site" && value == site)
      || (name == "username" && value == creds.username) || (name == "password" && value == creds.password)
      || (name == "captcha" && value == creds.captcha) || (name == "otp" && value == creds.otp)
  }

  /** The value a name stands for in request `i`: the one taken last before it, or the one given. */
  ghost predicate StandsFor(session: map<string, string>, creds: Credentials, site: string, tr: seq<Exchange>, i: nat,
      name: string, value: string) {
    || (exists j: nat :: TakenLast(tr, i, j, name) && value == tr[j].values.value[name])
    || (NeverTaken(tr, i, name) && GivenAs(session, creds, site, name, value))
  }

  lemma {:induction false} BoundWhenNever(vars: map<string, string>, tr: seq<Exchange>, i: nat, name: string)
    requires i <= |tr| && NeverTaken(tr, i, name)
    ensures name in Bindings(vars, tr, i) <==> name in vars
    ensures name in vars ==> name in Bindings(vars, tr, i) && Bindings(vars, tr, i)[name] == vars[name]
  {
    if i > 0 {
      BoundWhenNever(vars, tr, i - 1, name);
      assert !Takes(tr, i - 1, name);
    }
  }

  lemma {:induction false} BoundWhenTaken(vars: map<string, string>, tr: seq<Exchange>, i: nat, j: nat, name: string)
    requires i <= |tr| && TakenLast(tr, i, j, name)
    ensures name in Bindings(vars, tr, i) && Bindings(vars, tr, i)[name] == tr[j].values.value[name]
  {
    if j < i - 1 {
      assert !Takes(tr, i - 1, name);
      BoundWhenTaken(vars, tr, i - 1, j, name);
    }
  }

  lemma {:induction false} NeverOrLast(tr: seq<Exchange>, i: nat, name: string)
    ensures NeverTaken(tr, i, name) || exists j: nat :: TakenLast(tr, i, j, name)
  {
    if i > 0 {
      NeverOrLast(tr, i - 1, name);
      if Takes(tr, i - 1, name) {
        assert TakenLast(tr, i, i - 1, name);
      } else {
        var before := i - 1;
        if j: nat :| TakenLast(tr, before, j, name) {
          assert TakenLast(tr, i, j, name);
        }
      }
    }
  }

  lemma BoundExactly(vars: map<string, string>, tr: seq<Exchange>, i: nat, name: string)
    requires i <= |tr|
    ensures NeverTaken(tr, i, name) ==>
      (name in Bindings(vars, tr, i) <==> name in vars)
      && (name in vars ==> name in Bindings(vars, tr, i) && Bindings(vars, tr, i)[name] == vars[name])
    ensures forall j: nat :: TakenLast(tr, i, j, name) ==>
      name in Bindings(vars, tr, i) && Bindings(vars, tr, i)[name] == tr[j].values.value[name]
    ensures NeverTaken(tr, i, name) || exists j: nat :: TakenLast(tr, i, j, name)
  {
    NeverOrLast(tr, i, name);
    if NeverTaken(tr, i, name) {
      BoundWhenNever(vars, tr, i, name);
    }
    forall j: nat | TakenLast(tr, i, j, name)
      ensures name in Bindings(vars, tr, i) && Bindings(vars, tr, i)[name] == tr[j].values.value[name]
    {
      BoundWhenTaken(vars, tr, i, j, name);
    }
  }

  lemma StartGives(session: map<string, string>, creds: Credentials, site: string, name: string, value: string)
    ensures GivenAs(session, creds, site, name, value) <==>
      name in StartVars(session, creds, site) && StartVars(session, creds, site)[name] == value
  {
  }

  /** What is bound is what stands for the name. */
  lemma StandsExactly(session: map<string, string>, creds: Credentials, site: string, tr: seq<Exchange>, i: nat,
      name: string, value: string)
    requires i <= |tr|
    ensures var bound := Bindings(StartVars(session, creds, site), tr, i);
      StandsFor(session, creds, site, tr, i, name, value) <==> name in bound && bound[name] == value
  {
    BoundExactly(StartVars(session, creds, site), tr, i, name);
    StartGives(session, creds, site, name, value);
  }

  // ---------- Exchange by exchange ----------

  /** A step that went through: a 2xx reply from which every rule could be served. */
  predicate WentThrough(step: Step, a: Answer, index: string -> int, values: map<string, string>) {
    a.Reply? && 200 <= a.response.status < 300 && Extracted(step.extract, a.response, index) == Some(values)
  }

  /** Why a step failed. A login can also leave nothing behind. */
  predicate FailsWith(step: Step, a: Answer, index: string -> int, login: bool, f: Failure) {
    match a
    case NoConnection => f == Unreachable
    case Reply(r) =>
      if r.status in {401, 403} then f == Unauthorized
      else if r.status in {404, 405} then f == EndpointGone
      else if r.status < 200 || r.status >= 300 then f == BadStatus
      else if Extracted(step.extract, r, index).None? then f == NotExtracted
      else login && !r.hasCookies && Extracted(step.extract, r, index) == Some(map[]) && f == NoSession
  }

  /** Exchange `i`, with the variables it was rendered from. */
  ghost predicate SentAs(steps: seq<Step>, vars: map<string, string>, world: World, n: nat, index: string -> int,
      tr: seq<Exchange>, i: nat)
    requires i < |tr| <= |steps|
  {
    && Rendered(steps[i], Bindings(vars, tr, i)) == Some(tr[i].request)
    && (i < |tr| - 1 ==> tr[i].values.Some?)
    && (tr[i].values.Some? ==> WentThrough(steps[i], world(n + i, tr[i].request), index, tr[i].values.value))
  }

  ghost predicate AllSentAs(steps: seq<Step>, vars: map<string, string>, world: World, n: nat, index: string -> int,
      tr: seq<Exchange>) {
    |tr| <= |steps| && forall i: nat :: i < |tr| ==> SentAs(steps, vars, world, n, index, tr, i)
  }

  /** How a run ends: at the first step that fails, at the first that cannot be rendered, or at the end. */
  ghost predicate EndsAs(steps: seq<Step>, vars: map<string, string>, world: World, n: nat, index: string -> int,
      tr: seq<Exchange>, login: bool, stopped: Option<Failure>)
    requires |tr| <= |steps|
  {
    var k := |tr|;
    if k > 0 && tr[k - 1].values.None? then
      && stopped.Some?
      && FailsWith(steps[k - 1], world(n + k - 1, tr[k - 1].request), index, login && k == 1, stopped.value)
    else if k < |steps| then stopped == Some(MissingVariables) && Rendered(steps[k], Bindings(vars, tr, k)).None?
    else stopped == None
  }

  /** One exchange in front of some others. */
  lemma SentFurther(step: Step, steps: seq<Step>, vars: map<string, string>, world: World, n: nat,
      index: string -> int, e: Exchange, rest: seq<Exchange>)
    requires Rendered(step, vars) == Some(e.request)
    requires e.values.Some? ==>
      WentThrough(step, world(n, e.request), index, e.values.value)
      && AllSentAs(steps, vars + e.values.value, world, n + 1, index, rest)
    requires e.values.None? ==> rest == []
    ensures AllSentAs([step] + steps, vars, world, n, index, [e] + rest)
  {
    var tr := [e] + rest;
    forall i: nat | i < |tr| ensures SentAs([step] + steps, vars, world, n, index, tr, i) {
      if i > 0 {
        SentBehind(step, steps, vars, world, n, index, e, rest, i - 1);
      }
    }
  }

  lemma SentBehind(step: Step, steps: seq<Step>, vars: map<string, string>, world: World, n: nat,
      index: string -> int, e: Exchange, rest: seq<Exchange>, i: nat)
    requires i < |rest| <= |steps| && e.values.Some?
    requires SentAs(steps, vars + e.values.value, world, n + 1, index, rest, i)
    ensures SentAs([step] + steps, vars, world, n, index, [e] + rest, i + 1)
  {
    BindingsShift(vars, e, rest, i);
    assert ([e] + rest)[i + 1] == rest[i] && ([step] + steps)[i + 1] == steps[i] && n + 1 + i == n + (i + 1);
  }

  lemma EndsFurther(step: Step, steps: seq<Step>, vars: map<string, string>, world: World, n: nat,
      index: string -> int, e: Exchange, rest: seq<Exchange>, login: bool, stopped: Option<Failure>)
    requires |rest| <= |steps| && e.values.Some?
    requires EndsAs(steps, vars + e.values.value, world, n + 1, index, rest, false, stopped)
    ensures EndsAs([step] + steps, vars, world, n, index, [e] + rest, login, stopped)
  {
    var tr, k := [e] + rest, |rest|;
    BindingsShift(vars, e, rest, k);
    if k > 0 {
      assert tr[k] == rest[k - 1] && ([step] + steps)[k] == steps[k - 1] && n + 1 + k - 1 == n + (k + 1) - 1;
    }
    if k < |steps| {
      assert ([step] + steps)[k + 1] == steps[k];
    }
  }

  /** A trace and an outcome as they belong to some steps. */
  ghost predicate Lawful(steps: seq<Step>, vars: map<string, string>, got: map<string, string>, world: World, n: nat,
      index: string -> int, tr: seq<Exchange>, login: bool, o: Outcome) {
    && AllSentAs(steps, vars, world, n, index, tr) && EndsAs(steps, vars, world, n, index, tr, login, o.stopped)
    && o.vars == Bindings(got, tr, |tr|)
  }

  lemma PerformFacts(step: Step, vars: map<string, string>, world: World, n: nat, index: string -> int)
    requires Rendered(step, vars).Some?
    ensures var r, a := Perform(step, vars, world, n, index), world(n, Rendered(step, vars).value);
      && (r.Ok? ==> WentThrough(step, a, index, r.value))
      && (r.Err? ==> FailsWith(step, a, index, false, r.failure))
  {
  }

  lemma LogInFacts(step: Step, vars: map<string, string>, world: World, index: string -> int)
    requires Rendered(step, vars).Some?
    ensures var r, a := LogIn(step, vars, world, index), world(0, Rendered(step, vars).value);
      && (r.Ok? ==> WentThrough(step, a, index, r.value))
      && (r.Err? ==> FailsWith(step, a, index, true, r.failure))
  {
    PerformFacts(step, vars, world, 0, index);
  }

  lemma NothingSent(steps: seq<Step>, vars: map<string, string>, got: map<string, string>, world: World, n: nat,
      index: string -> int, login: bool)
    ensures steps == [] ==> Lawful(steps, vars, got, world, n, index, [], login, Outcome(got, None))
    ensures steps != [] && Rendered(steps[0], vars).None? ==>
      Lawful(steps, vars, got, world, n, index, [], login, Outcome(got, Some(MissingVariables)))
  {
  }

  lemma FirstFails(step: Step, steps: seq<Step>, vars: map<string, string>, got: map<string, string>, world: World,
      n: nat, index: string -> int, e: Exchange, login: bool, f: Failure)
    requires Rendered(step, vars) == Some(e.request) && e.values.None?
    requires FailsWith(step, world(n, e.request), index, login, f)
    ensures Lawful([step] + steps, vars, got, world, n, index, [e], login, Outcome(got, Some(f)))
  {
    SentFurther(step, steps, vars, world, n, index, e, []);
    assert [e] + [] == [e];
    assert Bindings(got, [e], 0) == got && n + 1 - 1 == n;
  }

  lemma FirstGoesThrough(step: Step, steps: seq<Step>, vars: map<string, string>, got: map<string, string>,
      world: World, n: nat, index: string -> int, e: Exchange, rest: seq<Exchange>, login: bool, o: Outcome)
    requires Rendered(step, vars) == Some(e.request) && e.values.Some?
    requires WentThrough(step, world(n, e.request), index, e.values.value)
    requires Lawful(steps, vars + e.values.value, got + e.values.value, world, n + 1, index, rest, false, o)
    ensures Lawful([step] + steps, vars, got, world, n, index, [e] + rest, login, o)
  {
    SentFurther(step, steps, vars, world, n, index, e, rest);
    EndsFurther(step, steps, vars, world, n, index, e, rest, login, o.stopped);
    BindingsShift(got, e, rest, |rest|);
  }

  lemma TraceGoesOn(step: Step, rest: seq<Step>, vars: map<string, string>, got: map<string, string>, world: World,
      n: nat, index: string -> int, values: map<string, string>)
    requires Rendered(step, vars).Some? && Perform(step, vars, world, n, index) == Ok(values)
    ensures Trace([step] + rest, vars, world, n, index) ==
      [Exchange(Rendered(step, vars).value, Some(values))] + Trace(rest, vars + values, world, n + 1, index)
    ensures RunSteps([step] + rest, vars, got, world, n, index) ==
      RunSteps(rest, vars + values, got + values, world, n + 1, index)
  {
    assert ([step] + rest)[1..] == rest;
  }

  lemma TraceEnds(step: Step, rest: seq<Step>, vars: map<string, string>, got: map<string, string>, world: World,
      n: nat, index: string -> int, f: Failure)
    requires Rendered(step, vars).Some? && Perform(step, vars, world, n, index) == Err(f)
    ensures Trace([step] + rest, vars, world, n, index) == [Exchange(Rendered(step, vars).value, None)]
    ensures RunSteps([step] + rest, vars, got, world, n, index) == Outcome(got, Some(f))
  {
  }

  lemma {:induction false} TraceLaw(steps: seq<Step>, vars: map<string, string>, got: map<string, string>,
      world: World, n: nat, index: string -> int)
    ensures Lawful(steps, vars, got, world, n, index, Trace(steps, vars, world, n, index), false,
      RunSteps(steps, vars, got, world, n, index))
    decreases |steps|
  {
    if steps == [] || Rendered(steps[0], vars).None? {
      NothingSent(steps, vars, got, world, n, index, false);
    } else {
      var step, rest := steps[0], steps[1..];
      var q := Rendered(step, vars).value;
      assert steps == [step] + rest;
      PerformFacts(step, vars, world, n, index);
      match Perform(step, vars, world, n, index) {
        case Ok(values) =>
          var tr, o := Trace(rest, vars + values, world, n + 1, index),
                       RunSteps(rest, vars + values, got + values, world, n + 1, index);
          TraceLaw(rest, vars + values, got + values, world, n + 1, index);
          FirstGoesThrough(step, rest, vars, got, world, n, index, Exchange(q, Some(values)), tr, false, o);
          TraceGoesOn(step, rest, vars, got, world, n, index, values);
        case Err(f) =>
          FirstFails(step, rest, vars, got, world, n, index, Exchange(q, None), false, f);
          TraceEnds(step, rest, vars, got, world, n, index, f);
      }
    }
  }

  /** The steps of a run: a form login comes first unless both name and password are blank. */
  function Plan(p: Pack, creds: Credentials): seq<Step> {
    if p.login.None? || p.login.value.mode != "form" then p.read
    else if Text.TrimSpace(creds.username) == "" && Text.TrimSpace(creds.password) == "" then p.read
    else [p.login.value.step] + p.read
  }

  predicate StartsWithLogin(p: Pack, creds: Credentials) { |Plan(p, creds)| > |p.read| }

  lemma LoginGoesOn(step: Step, read: seq<Step>, vars: map<string, string>, world: World, index: string -> int,
      q: Request, values: map<string, string>, o: Outcome)
    requires Rendered(step, vars) == Some(q) && WentThrough(step, world(0, q), index, values)
    requires o == RunSteps(read, vars + values, map[] + values, world, 1, index)
    ensures Lawful([step] + read, vars, map[], world, 0, index,
      [Exchange(q, Some(values))] + Trace(read, vars + values, world, 1, index), true, o)
  {
    TraceLaw(read, vars + values, map[] + values, world, 1, index);
    FirstGoesThrough(step, read, vars, map[], world, 0, index, Exchange(q, Some(values)),
      Trace(read, vars + values, world, 1, index), true, o);
  }

  lemma RunLaw(p: Pack, session: map<string, string>, creds: Credentials, site: string, world: World,
      index: string -> int)
    ensures Lawful(Plan(p, creds), StartVars(session, creds, site), map[], world, 0, index,
      RunTrace(p, session, creds, site, world, index), StartsWithLogin(p, creds),
      Run(p, session, creds, site, world, index))
  {
    var vars := StartVars(session, creds, site);
    if !LogsIn(p, creds) {
      TraceLaw(p.read, vars, map[], world, 0, index);
    } else {
      var step := p.login.value.step;
      if Rendered(step, vars).None? {
        NothingSent([step] + p.read, vars, map[], world, 0, index, true);
      } else {
        var q := Rendered(step, vars).value;
        LogInFacts(step, vars, world, index);
        match LogIn(step, vars, world, index) {
          case Ok(values) =>
            assert map[] + values == values;
            LoginGoesOn(step, p.read, vars, world, index, q, values,
              RunSteps(p.read, vars + values, values, world, 1, index));
          case Err(f) =>
            FirstFails(step, p.read, vars, map[], world, 0, index, Exchange(q, None), true, f);
            assert [Exchange(q, None)] + [] == [Exchange(q, None)];
        }
      }
    }
  }

  // ---------- What is sent ----------

  /** `text` is the template with each name replaced by what it stands for in request `i`. */
  ghost predicate TextFor(session: map<string, string>, creds: Credentials, site: string, tr: seq<Exchange>, i: nat,
      tmpl: string, text: string) {
    && (forall name :: name in Template.Names(tmpl) ==>
          exists value :: StandsFor(session, creds, site, tr, i, name, value))
    && (forall vars: map<string, string> ::
          (forall name :: name in Template.Names(tmpl) ==>
             name in vars && StandsFor(session, creds, site, tr, i, name, vars[name])) ==>
          Template.Render(tmpl, vars) == Template.Rendered(text))
  }

  ghost predicate RequestFor(session: map<string, string>, creds: Credentials, site: string, tr: seq<Exchange>, i: nat,
      step: Step, q: Request) {
    && q.verb == step.verb && q.url == step.url && q.bodyType == step.bodyType && q.headers.Keys == step.headers.Keys
    && TextFor(session, creds, site, tr, i, step.body, q.body)
    && forall k :: k in step.headers && k in q.headers ==>
         TextFor(session, creds, site, tr, i, step.headers[k], q.headers[k])
  }

  lemma TextIsFor(session: map<string, string>, creds: Credentials, site: string, tr: seq<Exchange>, i: nat,
      tmpl: string, bound: map<string, string>)
    requires i <= |tr| && bound == Bindings(StartVars(session, creds, site), tr, i)
    requires Template.Names(tmpl) <= bound.Keys
    ensures TextFor(session, creds, site, tr, i, tmpl, Template.Filled(Template.Pieces(tmpl), bound))
  {
    forall name | name in Template.Names(tmpl) ensures StandsFor(session, creds, site, tr, i, name, bound[name]) {
      StandsExactly(session, creds, site, tr, i, name, bound[name]);
    }
    forall vars: map<string, string> |
      forall name :: name in Template.Names(tmpl) ==>
        name in vars && StandsFor(session, creds, site, tr, i, name, vars[name])
      ensures Template.Render(tmpl, vars) == Template.Rendered(Template.Filled(Template.Pieces(tmpl), bound))
    {
      forall name | name in Template.Names(tmpl) ensures vars[name] == bound[name] {
        StandsExactly(session, creds, site, tr, i, name, vars[name]);
      }
      Template.SameValuesSameText(tmpl, bound, vars);
    }
  }

  lemma RequestIsFor(session: map<string, string>, creds: Credentials, site: string, tr: seq<Exchange>, i: nat,
      step: Step, bound: map<string, string>, q: Request)
    requires i <= |tr| && bound == Bindings(StartVars(session, creds, site), tr, i)
    requires Rendered(step, bound) == Some(q)
    ensures RequestFor(session, creds, site, tr, i, step, q)
  {
    TextIsFor(session, creds, site, tr, i, step.body, bound);
    forall k | k in step.headers && k in q.headers
      ensures TextFor(session, creds, site, tr, i, step.headers[k], q.headers[k])
    {
      forall name | name in Template.Names(step.headers[k]) ensures name in bound.Keys {
        assert name in Asks(step);
      }
      TextIsFor(session, creds, site, tr, i, step.headers[k], bound);
    }
  }

  /** Every request is that of its step, with each name replaced by the value taken last before it, or by
      the one given: the session's, or else the site or the part of the credentials. */
  lemma RequestsExactly(p: Pack, session: map<string, string>, creds: Credentials, site: string, world: World,
      index: string -> int)
    ensures var tr := RunTrace(p, session, creds, site, world, index);
      |tr| <= |Plan(p, creds)|
      && forall i: nat :: i < |tr| ==>
        RequestFor(session, creds, site, tr, i, Plan(p, creds)[i], tr[i].request)
  {
    var vars, tr := StartVars(session, creds, site), RunTrace(p, session, creds, site, world, index);
    RunLaw(p, session, creds, site, world, index);
    forall i: nat | i < |tr| ensures RequestFor(session, creds, site, tr, i, Plan(p, creds)[i], tr[i].request) {
      assert SentAs(Plan(p, creds), vars, world, 0, index, tr, i);
      RequestIsFor(session, creds, site, tr, i, Plan(p, creds)[i], Bindings(vars, tr, i), tr[i].request);
    }
  }

  lemma PlaceholderText(session: map<string, string>, creds: Credentials, site: string, tr: seq<Exchange>, i: nat,
      name: string, text: string)
    requires Template.IsName(name) && TextFor(session, creds, site, tr, i, "{" + name + "}", text)
    ensures StandsFor(session, creds, site, tr, i, name, text)
  {
    SlotNames(name);
    var value :| StandsFor(session, creds, site, tr, i, name, value);
    Template.SlotAlone(name, map[name := value]);
    assert Template.Render("{" + name + "}", map[name := value]) == Template.Rendered(text);
  }

  /** A body that is one placeholder is sent as the value of its name. */
  lemma PlaceholderSent(p: Pack, session: map<string, string>, creds: Credentials, site: string, world: World,
      index: string -> int, i: nat, name: string)
    requires i < |RunTrace(p, session, creds, site, world, index)| <= |Plan(p, creds)| && Template.IsName(name)
    requires Plan(p, creds)[i].body == "{" + name + "}"
    ensures var tr := RunTrace(p, session, creds, site, world, index);
      StandsFor(session, creds, site, tr, i, name, tr[i].request.body)
  {
    var tr := RunTrace(p, session, creds, site, world, index);
    RequestsExactly(p, session, creds, site, world, index);
    assert RequestFor(session, creds, site, tr, i, Plan(p, creds)[i], tr[i].request);
    PlaceholderText(session, creds, site, tr, i, name, tr[i].request.body);
  }

  // ---------- What is kept, and where a run ends ----------

  /** Every exchange but the last went through, and a value taken is one the rules took from the answer. */
  ghost predicate ExchangesRight(all: seq<Step>, world: World, index: string -> int, tr: seq<Exchange>) {
    |tr| <= |all| && forall i: nat :: i < |tr| ==>
      && (i < |tr| - 1 ==> tr[i].values.Some?)
      && (tr[i].values.Some? ==> WentThrough(all[i], world(i, tr[i].request), index, tr[i].values.value))
  }

  /** A name the step asks for stands for nothing. */
  ghost predicate NameMissing(session: map<string, string>, creds: Credentials, site: string, tr: seq<Exchange>,
      step: Step) {
    exists name :: name in Asks(step) && forall value :: !StandsFor(session, creds, site, tr, |tr|, name, value)
  }

  /** A run ends at the first step that fails, with the reason its answer gives; at the first that asks for
      a name that stands for nothing; or behind its last step. */
  ghost predicate EndsRight(p: Pack, session: map<string, string>, creds: Credentials, site: string, world: World,
      index: string -> int, tr: seq<Exchange>, stopped: Option<Failure>)
    requires |tr| <= |Plan(p, creds)|
  {
    var all, k := Plan(p, creds), |tr|;
    if k > 0 && tr[k - 1].values.None? then
      && stopped.Some?
      && FailsWith(all[k - 1], world(k - 1, tr[k - 1].request), index, StartsWithLogin(p, creds) && k == 1,
           stopped.value)
    else if k < |all| then stopped == Some(MissingVariables) && NameMissing(session, creds, site, tr, all[k])
    else stopped == None
  }

  /** What a run keeps: each name that was taken, with the value taken last. */
  ghost predicate KeepsLast(tr: seq<Exchange>, vars: map<string, string>) {
    forall name ::
      && (name in vars ==> exists j: nat :: TakenLast(tr, |tr|, j, name) && vars[name] == tr[j].values.value[name])
      && (name !in vars ==> NeverTaken(tr, |tr|, name))
  }

  lemma MissingMeansNothingStands(session: map<string, string>, creds: Credentials, site: string, tr: seq<Exchange>,
      step: Step)
    requires Rendered(step, Bindings(StartVars(session, creds, site), tr, |tr|)).None?
    ensures NameMissing(session, creds, site, tr, step)
  {
    var name :| name in Asks(step) && name !in Bindings(StartVars(session, creds, site), tr, |tr|);
    forall value ensures !StandsFor(session, creds, site, tr, |tr|, name, value) {
      StandsExactly(session, creds, site, tr, |tr|, name, value);
    }
  }

  lemma OutcomeExactly(p: Pack, session: map<string, string>, creds: Credentials, site: string, world: World,
      index: string -> int)
    ensures var tr, o := RunTrace(p, session, creds, site, world, index), Run(p, session, creds, site, world, index);
      && ExchangesRight(Plan(p, creds), world, index, tr)
      && EndsRight(p, session, creds, site, world, index, tr, o.stopped)
      && KeepsLast(tr, o.vars)
  {
    var vars, tr := StartVars(session, creds, site), RunTrace(p, session, creds, site, world, index);
    RunLaw(p, session, creds, site, world, index);
    var all := Plan(p, creds);
    SentIsRight(all, vars, world, index, tr);
    if |tr| < |all| && (tr == [] || tr[|tr| - 1].values.Some?) {
      MissingMeansNothingStands(session, creds, site, tr, all[|tr|]);
    }
    LastIsKept(tr);
  }

  lemma SentIsRight(all: seq<Step>, vars: map<string, string>, world: World, index: string -> int, tr: seq<Exchange>)
    requires AllSentAs(all, vars, world, 0, index, tr)
    ensures ExchangesRight(all, world, index, tr)
  {
    forall i: nat | i < |tr|
      ensures i < |tr| - 1 ==> tr[i].values.Some?
      ensures tr[i].values.Some? ==> WentThrough(all[i], world(i, tr[i].request), index, tr[i].values.value)
    {
      assert SentAs(all, vars, world, 0, index, tr, i);
    }
  }

  lemma LastIsKept(tr: seq<Exchange>)
    ensures KeepsLast(tr, Bindings(map[], tr, |tr|))
  {
    var bound := Bindings(map[], tr, |tr|);
    forall name
      ensures name in bound ==> exists j: nat :: TakenLast(tr, |tr|, j, name) && bound[name] == tr[j].values.value[name]
      ensures name !in bound ==> NeverTaken(tr, |tr|, name)
    {
      BoundExactly(map[], tr, |tr|, name);
    }
  }

  // ---------- Where requests go ----------

  /** A loaded pack sends nothing to a host it does not declare. */
  lemma OnlyDeclaredHosts(lib: Library, p: Pack, session: map<string, string>, creds: Credentials, site: string,
      world: World, index: string -> int)
    requires IsValid(lib, p)
    ensures forall e :: e in RunTrace(p, session, creds, site, world, index) ==>
      && e.request.verb in ["GET", "POST"] && e.request.bodyType in ["", "json", "form"]
      && lib.target(Text.TrimSpace(e.request.url)).Some? && lib.target(Text.TrimSpace(e.request.url)).value in p.hosts
  {
    var all, tr := Plan(p, creds), RunTrace(p, session, creds, site, world, index);
    RequestsExactly(p, session, creds, site, world, index);
    if StartsWithLogin(p, creds) {
      LoginScope(lib, p.hosts, p.login.value);
    }
    forall i: nat | i < |tr| ensures ShapeOk(lib, p.hosts, all[i]) && tr[i].request.url == all[i].url {
      assert RequestFor(session, creds, site, tr, i, all[i], tr[i].request);
      var k := if StartsWithLogin(p, creds) then i - 1 else i;
      if k >= 0 {
        assert all[i] == p.read[k];
      }
    }
    forall e | e in tr ensures exists i: nat :: i < |tr| && tr[i] == e {
    }
  }
}
