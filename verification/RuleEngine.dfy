/** Hostname to cluster key: first-match evaluation of ordered rules, and the static check that makes
    rendering total. Regular expressions are left uninterpreted. */
module RuleEngine {
  import opened Wrappers
  import opened Dsl
  import opened DslOps
  import opened Template

  type Id = nat

  /** A compiled pattern: the names of its groups, and what it captures from a hostname. */
  datatype Compiled = Compiled(names: seq<string>, find: string -> Option<seq<string>>) {
    ghost predicate Sound() {
      && names != [] && names[0] == ""
      && forall host: string :: find(host).Some? ==> |find(host).value| == |names|
    }
  }

  type Regex = r: Compiled | r.Sound() witness Compiled([""], host => None)

  /** What evaluation calls: the pattern compiler, and the interpreter of pipelines. */
  datatype Engine = Engine(
    compile: string -> Option<Regex>,
    apply: (Pipeline, string) -> Result<string, ApplyError>)

  /** The engine that runs pipelines with the registry's own interpreter. */
  function EngineWith(compile: string -> Option<Regex>, lib: Library): Engine {
    Engine(compile, (p: Pipeline, input: string) => ApplyResult(lib, p, input))
  }

  datatype Rule = Rule(
    id: Id, pattern: string, transforms: map<string, Pipeline>, template: string, priority: int, enabled: bool)

  datatype Warning = TransformFailed(capture: string, error: ApplyError) | EmptyKey

  datatype MatchResult = MatchResult(
    ruleId: Option<Id>, pattern: string,
    raw: map<string, string>, transformed: map<string, string>,
    key: string, warnings: seq<Warning>)

  // ----- one matched rule -----

  /** The named captures; a name used twice keeps its last value. */
  function RawCaptures(names: seq<string>, found: seq<string>): map<string, string>
    requires |names| == |found|
  {
    if names == [] then map[]
    else
      var last := |names| - 1;
      var before := RawCaptures(names[..last], found[..last]);
      if last == 0 || names[last] == "" then before else before[names[last] := found[last]]
  }

  lemma {:induction false} RawCaptureNames(names: seq<string>, found: seq<string>)
    requires |names| == |found| && (names != [] ==> names[0] == "")
    ensures forall name :: name in RawCaptures(names, found) <==> name in names && name != ""
  {
    if names != [] {
      var last := |names| - 1;
      RawCaptureNames(names[..last], found[..last]);
      assert names == names[..last] + [names[last]];
    }
  }

  /** No later group has the same name. */
  predicate LastOfName(names: seq<string>, i: nat)
    requires i < |names|
  {
    forall j | i < j < |names| :: names[j] != names[i]
  }

  /** `raw` maps each group name to what its last group of that name captured, and has no other names. */
  ghost predicate CapturesOf(names: seq<string>, found: seq<string>, raw: map<string, string>)
    requires |names| == |found|
  {
    && (forall name :: name in raw <==> name in names && name != "")
    && forall i | 0 <= i < |names| && names[i] != "" && LastOfName(names, i) ::
         names[i] in raw && raw[names[i]] == found[i]
  }

  /** The value of a name is what its own group captured. */
  lemma {:induction false} CaptureAt(names: seq<string>, found: seq<string>, i: nat)
    requires |names| == |found| && i < |names| && names[0] == "" && names[i] != "" && LastOfName(names, i)
    ensures names[i] in RawCaptures(names, found) && RawCaptures(names, found)[names[i]] == found[i]
  {
    var last := |names| - 1;
    if i < last {
      assert names[last] != names[i];
      CaptureAt(names[..last], found[..last], i);
    }
  }

  lemma RawCapturesAreCaptures(names: seq<string>, found: seq<string>)
    requires |names| == |found| && names != [] && names[0] == ""
    ensures CapturesOf(names, found, RawCaptures(names, found))
  {
    RawCaptureNames(names, found);
    forall i | 0 <= i < |names| && names[i] != "" && LastOfName(names, i)
      ensures names[i] in RawCaptures(names, found) && RawCaptures(names, found)[names[i]] == found[i]
    {
      CaptureAt(names, found, i);
    }
  }

  /** What becomes of one capture: its pipeline's result, or the raw value when there is no pipeline or
      the pipeline fails. */
  function Transform(e: Engine, rule: Rule, name: string, raw: string): string {
    if name in rule.transforms then
      match e.apply(rule.transforms[name], raw)
      case Ok(value) => value
      case Err(_) => raw
    else raw
  }

  predicate Fails(e: Engine, rule: Rule, name: string, raw: string) {
    name in rule.transforms && e.apply(rule.transforms[name], raw).Err?
  }

  function Transformed(e: Engine, rule: Rule, raw: map<string, string>): map<string, string> {
    map name | name in raw :: Transform(e, rule, name, raw[name])
  }

  function FailureOf(e: Engine, rule: Rule, name: string, raw: string): Warning
    requires Fails(e, rule, name, raw)
  {
    TransformFailed(name, e.apply(rule.transforms[name], raw).error)
  }

  /** The warnings for the captures in `names`: one for each pipeline that fails. */
  ghost function Failures(e: Engine, rule: Rule, raw: map<string, string>, names: set<string>): set<Warning>
    requires names <= raw.Keys
  {
    set name | name in names && Fails(e, rule, name, raw[name]) :: FailureOf(e, rule, name, raw[name])
  }

  lemma MoreFailures(e: Engine, rule: Rule, raw: map<string, string>, names: set<string>, name: string)
    requires names <= raw.Keys && name in raw && name !in names
    ensures var before, after := Failures(e, rule, raw, names), Failures(e, rule, raw, names + {name});
            if Fails(e, rule, name, raw[name])
            then var w := FailureOf(e, rule, name, raw[name]); after == before + {w} && w !in before
            else after == before
  {
  }

  /** The outcome of a match, with the transform warnings as a set: nothing in it depends on the order
      in which the captures are visited. */
  datatype Outcome = Outcome(
    ruleId: Option<Id>, pattern: string,
    raw: map<string, string>, transformed: map<string, string>,
    key: string, warnings: set<Warning>)

  ghost function MatchOutcome(e: Engine, rule: Rule, re: Regex, found: seq<string>): Outcome
    requires |found| == |re.names|
  {
    var raw := RawCaptures(re.names, found);
    var transformed := Transformed(e, rule, raw);
    Outcome(Some(rule.id), rule.pattern, raw, transformed, Render(rule.template, transformed),
      Failures(e, rule, raw, raw.Keys))
  }

  /** Each value is the raw one, or what its pipeline makes of it if there is one and it does not fail. */
  ghost predicate TransformsOf(e: Engine, rule: Rule, raw: map<string, string>, transformed: map<string, string>) {
    && transformed.Keys == raw.Keys
    && forall name | name in raw ::
         transformed[name] ==
         if name in rule.transforms && e.apply(rule.transforms[name], raw[name]).Ok?
         then e.apply(rule.transforms[name], raw[name]).value else raw[name]
  }

  /** The outcome of a match, part by part. */
  lemma MatchSays(e: Engine, rule: Rule, re: Regex, found: seq<string>)
    requires |found| == |re.names|
    ensures var o := MatchOutcome(e, rule, re, found);
            && o.ruleId == Some(rule.id) && o.pattern == rule.pattern
            && CapturesOf(re.names, found, o.raw) && TransformsOf(e, rule, o.raw, o.transformed)
            && o.key == Render(rule.template, o.transformed)
            && forall w :: w in o.warnings <==>
                 exists name | name in o.raw && name in rule.transforms ::
                   var applied := e.apply(rule.transforms[name], o.raw[name]);
                   applied.Err? && w == TransformFailed(name, applied.error)
  {
    RawCapturesAreCaptures(re.names, found);
    var o := MatchOutcome(e, rule, re, found);
    forall w | w in o.warnings
      ensures exists name | name in o.raw && name in rule.transforms ::
                var applied := e.apply(rule.transforms[name], o.raw[name]);
                applied.Err? && w == TransformFailed(name, applied.error)
    {
      var name :| name in o.raw && Fails(e, rule, name, o.raw[name]) && w == FailureOf(e, rule, name, o.raw[name]);
      assert e.apply(rule.transforms[name], o.raw[name]).Err?;
    }
    forall name | name in o.raw && name in rule.transforms && e.apply(rule.transforms[name], o.raw[name]).Err?
      ensures TransformFailed(name, e.apply(rule.transforms[name], o.raw[name]).error) in o.warnings
    {
      assert Fails(e, rule, name, o.raw[name]);
      assert FailureOf(e, rule, name, o.raw[name]) in o.warnings;
    }
  }

  /** `r` reports `o`, each transform warning once and the empty-key warning last. */
  ghost predicate Reports(r: MatchResult, o: Outcome) {
    && r.ruleId == o.ruleId && r.pattern == o.pattern && r.raw == o.raw
    && r.transformed == o.transformed && r.key == o.key
    && if r.ruleId.Some? && r.key == "" then
         var last := |r.warnings| - 1;
         last >= 0 && r.warnings[last] == EmptyKey && multiset(r.warnings[..last]) == multiset(o.warnings)
       else multiset(r.warnings) == multiset(o.warnings)
  }

  /** What a report of a match says, part by part. */
  lemma ReportSays(e: Engine, rule: Rule, re: Regex, found: seq<string>, r: MatchResult)
    requires |found| == |re.names| && Reports(r, MatchOutcome(e, rule, re, found))
    ensures r.ruleId == Some(rule.id) && r.pattern == rule.pattern
    ensures CapturesOf(re.names, found, r.raw) && TransformsOf(e, rule, r.raw, r.transformed)
    ensures r.key == Render(rule.template, r.transformed)
    ensures EmptyKey in r.warnings <==> r.key == ""
  {
    MatchSays(e, rule, re, found);
    var o := MatchOutcome(e, rule, re, found);
    assert EmptyKey !in o.warnings;
    EmptyKeyIsReported(r, o);
  }

  lemma EmptyKeyIsReported(r: MatchResult, o: Outcome)
    requires Reports(r, o) && o.ruleId.Some? && EmptyKey !in o.warnings
    ensures EmptyKey in r.warnings <==> r.key == ""
  {
    if r.key != "" { assert EmptyKey in r.warnings <==> EmptyKey in multiset(r.warnings); }
  }

  method EvaluateMatch(e: Engine, rule: Rule, re: Regex, found: seq<string>) returns (r: MatchResult)
    requires |found| == |re.names|
    ensures Reports(r, MatchOutcome(e, rule, re, found))
    ensures r.ruleId == Some(rule.id) && r.pattern == rule.pattern
    ensures CapturesOf(re.names, found, r.raw) && TransformsOf(e, rule, r.raw, r.transformed)
    ensures r.key == Render(rule.template, r.transformed)
    ensures EmptyKey in r.warnings <==> r.key == ""
  {
    var raw: map<string, string> := map[];
    for i := 0 to |re.names|
      invariant raw == RawCaptures(re.names[..i], found[..i])
    {
      assert re.names[..i + 1][..i] == re.names[..i] && found[..i + 1][..i] == found[..i];
      if i != 0 && re.names[i] != "" { raw := raw[re.names[i] := found[i]]; }
    }
    assert re.names[..|re.names|] == re.names && found[..|re.names|] == found;
    var transformed, warnings := TransformCaptures(e, rule, raw);
    var key := RenderTemplate(rule.template, transformed);
    if key == "" {
      ghost var transformWarnings := warnings;
      warnings := warnings + [EmptyKey];
      assert warnings[..|warnings| - 1] == transformWarnings;
    }
    r := MatchResult(Some(rule.id), rule.pattern, raw, transformed, key, warnings);
    ReportSays(e, rule, re, found, r);
  }

  /** The captures among `names` have been visited: each has its value, and each failure its warning. */
  ghost predicate Visited(
    e: Engine, rule: Rule, raw: map<string, string>, names: set<string>,
    transformed: map<string, string>, warnings: seq<Warning>)
  {
    && names <= raw.Keys
    && transformed == (map name | name in names :: Transform(e, rule, name, raw[name]))
    && multiset(warnings) == multiset(Failures(e, rule, raw, names))
  }

  lemma VisitOne(
    e: Engine, rule: Rule, raw: map<string, string>, names: set<string>,
    transformed: map<string, string>, warnings: seq<Warning>, name: string)
    requires Visited(e, rule, raw, names, transformed, warnings) && name in raw && name !in names
    ensures var failed := if Fails(e, rule, name, raw[name]) then [FailureOf(e, rule, name, raw[name])] else [];
            Visited(e, rule, raw, names + {name},
              transformed[name := Transform(e, rule, name, raw[name])], warnings + failed)
  {
    MoreFailures(e, rule, raw, names, name);
  }

  /** One capture's value, and its warning if its pipeline fails. */
  method TransformCapture(e: Engine, rule: Rule, name: string, raw: string)
    returns (value: string, failed: seq<Warning>)
    ensures value == Transform(e, rule, name, raw)
    ensures failed == if Fails(e, rule, name, raw) then [FailureOf(e, rule, name, raw)] else []
  {
    value, failed := raw, [];
    if name in rule.transforms {
      var applied := e.apply(rule.transforms[name], raw);
      if applied.Err? {
        failed := [TransformFailed(name, applied.error)];
      } else {
        value := applied.value;
      }
    }
  }

  /** The loop over the captures; `var name :| name in todo` stands for Go's arbitrary map order. */
  method TransformCaptures(e: Engine, rule: Rule, raw: map<string, string>)
    returns (transformed: map<string, string>, warnings: seq<Warning>)
    ensures transformed == Transformed(e, rule, raw)
    ensures multiset(warnings) == multiset(Failures(e, rule, raw, raw.Keys))
  {
    transformed, warnings := map[], [];
    var todo := raw.Keys;
    ghost var done: set<string> := {};
    while todo != {}
      invariant todo !! done && todo + done == raw.Keys
      invariant Visited(e, rule, raw, done, transformed, warnings)
      decreases todo
    {
      var name :| name in todo;
      VisitOne(e, rule, raw, done, transformed, warnings, name);
      var value, failed := TransformCapture(e, rule, name, raw[name]);
      warnings := warnings + failed;
      transformed := transformed[name := value];
      done := done + {name};
      todo := todo - {name};
    }
    assert done == raw.Keys;
  }

  // ----- the list of rules -----

  function Match(e: Engine, host: string, rule: Rule): (r: Option<(Regex, seq<string>)>)
    ensures r.Some? ==> |r.value.1| == |r.value.0.names|
  {
    if !rule.enabled then None
    else
      match e.compile(rule.pattern)
      case None => None
      case Some(re) =>
        match re.find(host)
        case None => None
        case Some(found) => Some((re, found))
  }

  predicate Matches(e: Engine, host: string, rule: Rule) { Match(e, host, rule).Some? }

  /** A rule matches when it is enabled, its pattern compiles, and the pattern finds something. */
  lemma MatchesMeans(e: Engine, host: string, rule: Rule)
    ensures Matches(e, host, rule)
       <==> rule.enabled && e.compile(rule.pattern).Some? && e.compile(rule.pattern).value.find(host).Some?
    ensures Matches(e, host, rule) ==>
              Match(e, host, rule) ==
              Some((e.compile(rule.pattern).value, e.compile(rule.pattern).value.find(host).value))
  {
  }

  const NO_MATCH := MatchResult(None, "", map[], map[], "", [])

  ghost function Evaluation(e: Engine, host: string, rules: seq<Rule>): Outcome {
    if rules == [] then Outcome(None, "", map[], map[], "", {})
    else
      match Match(e, host, rules[0])
      case Some((re, found)) => MatchOutcome(e, rules[0], re, found)
      case None => Evaluation(e, host, rules[1..])
  }

  method Evaluate(e: Engine, host: string, rules: seq<Rule>) returns (r: MatchResult)
    ensures Reports(r, Evaluation(e, host, rules))
    ensures forall i: nat | FirstMatch(e, host, rules, i) ::
              var re := e.compile(rules[i].pattern).value;
              && r.ruleId == Some(rules[i].id) && r.pattern == rules[i].pattern
              && CapturesOf(re.names, re.find(host).value, r.raw) && TransformsOf(e, rules[i], r.raw, r.transformed)
              && r.key == Render(rules[i].template, r.transformed)
    ensures (forall i | 0 <= i < |rules| :: !Matches(e, host, rules[i])) ==> r == NO_MATCH
  {
    forall i: nat | FirstMatch(e, host, rules, i)
      ensures var (re, found) := Match(e, host, rules[i]).value;
              && Evaluation(e, host, rules) == MatchOutcome(e, rules[i], re, found)
              && re == e.compile(rules[i].pattern).value && found == re.find(host).value
    {
      EvaluationPicksFirst(e, host, rules, i);
      MatchesMeans(e, host, rules[i]);
    }
    for i := 0 to |rules|
      invariant Evaluation(e, host, rules[i..]) == Evaluation(e, host, rules)
    {
      assert rules[i..][1..] == rules[i + 1..];
      if !rules[i].enabled { continue; }
      var re := e.compile(rules[i].pattern);
      if re.None? { continue; }
      var found := re.value.find(host);
      if found.None? { continue; }
      r := EvaluateMatch(e, rules[i], re.value, found.value);
      return;
    }
    r := NO_MATCH;
  }

  /** Whatever order the captures are visited in, two evaluations agree on everything but the order of
      the transform warnings. */
  lemma OrderIndependent(r: MatchResult, s: MatchResult, o: Outcome)
    requires Reports(r, o) && Reports(s, o)
    ensures s == r.(warnings := s.warnings) && multiset(s.warnings) == multiset(r.warnings)
  {
    if r.ruleId.Some? && r.key == "" {
      assert r.warnings == r.warnings[..|r.warnings| - 1] + [EmptyKey];
      assert s.warnings == s.warnings[..|s.warnings| - 1] + [EmptyKey];
    }
  }

  ghost function Failing(e: Engine, rule: Rule, raw: map<string, string>, names: set<string>): set<string>
    requires names <= raw.Keys
  {
    set name | name in names && Fails(e, rule, name, raw[name])
  }

  lemma MoreFailing(e: Engine, rule: Rule, raw: map<string, string>, names: set<string>, name: string)
    requires names <= raw.Keys && name in raw && name !in names
    ensures var before, after := Failing(e, rule, raw, names), Failing(e, rule, raw, names + {name});
            name !in before && after == if Fails(e, rule, name, raw[name]) then before + {name} else before
  {
  }

  /** With the registry's own interpreter, a rule whose pipelines are well-formed, as are all that were
      read from JSON, only ever warns of an op that failed on the capture's raw value. */
  lemma WellFormedRulesFailInOps(
    compile: string -> Option<Regex>, lib: Library, rule: Rule, re: Regex, found: seq<string>, w: Warning)
    requires |found| == |re.names| && forall name | name in rule.transforms :: WellFormed(rule.transforms[name])
    requires w in MatchOutcome(EngineWith(compile, lib), rule, re, found).warnings
    ensures w.TransformFailed? && w.error.OpFailed?
    ensures var raw := RawCaptures(re.names, found);
            && w.capture in raw && w.capture in rule.transforms
            && ApplyResult(lib, rule.transforms[w.capture], raw[w.capture]) == Err(w.error)
  {
    var raw := RawCaptures(re.names, found);
    var e := EngineWith(compile, lib);
    var name :| name in raw && Fails(e, rule, name, raw[name]) && w == FailureOf(e, rule, name, raw[name]);
    WellFormedIffNoRegistryError(lib, rule.transforms[name], raw[name]);
  }

  /** There is exactly one warning per failing pipeline. */
  lemma {:induction false} OneWarningPerFailure(
    e: Engine, rule: Rule, raw: map<string, string>, names: set<string>)
    requires names <= raw.Keys
    ensures |Failures(e, rule, raw, names)| == |Failing(e, rule, raw, names)|
  {
    if names == {} {
      assert Failing(e, rule, raw, names) == {} && Failures(e, rule, raw, names) == {};
    } else {
      var name :| name in names;
      var fewer := names - {name};
      OneWarningPerFailure(e, rule, raw, fewer);
      MoreFailures(e, rule, raw, fewer, name);
      MoreFailing(e, rule, raw, fewer, name);
      assert fewer + {name} == names;
    }
  }

  /** The first rule of the list that matches is at position `i`. */
  ghost predicate FirstMatch(e: Engine, host: string, rules: seq<Rule>, i: nat) {
    && i < |rules| && Matches(e, host, rules[i])
    && forall j | 0 <= j < i :: !Matches(e, host, rules[j])
  }

  lemma {:induction false} EvaluationPicksFirst(e: Engine, host: string, rules: seq<Rule>, i: nat)
    requires FirstMatch(e, host, rules, i)
    ensures var (re, found) := Match(e, host, rules[i]).value;
            Evaluation(e, host, rules) == MatchOutcome(e, rules[i], re, found)
  {
    if i > 0 {
      assert !Matches(e, host, rules[0]);
      assert forall j | 0 <= j < i - 1 :: rules[1..][j] == rules[j + 1];
      EvaluationPicksFirst(e, host, rules[1..], i - 1);
    }
  }

  lemma {:induction false} NoMatchIffNone(e: Engine, host: string, rules: seq<Rule>)
    ensures Evaluation(e, host, rules).ruleId.None? <==> forall j | 0 <= j < |rules| :: !Matches(e, host, rules[j])
    ensures Evaluation(e, host, rules).ruleId.None? ==>
              var o := Evaluation(e, host, rules);
              o.pattern == "" && o.raw == map[] && o.transformed == map[] && o.key == "" && o.warnings == {}
  {
    if rules != [] {
      NoMatchIffNone(e, host, rules[1..]);
      assert forall j | 1 <= j < |rules| :: rules[j] == rules[1..][j - 1];
    }
  }

  /** Evaluation splits over list concatenation. */
  lemma {:induction false} EvaluationConcat(e: Engine, host: string, a: seq<Rule>, b: seq<Rule>)
    ensures Evaluation(e, host, a + b) ==
            if Evaluation(e, host, a).ruleId.Some? then Evaluation(e, host, a) else Evaluation(e, host, b)
  {
    if a == [] {
      assert a + b == b;
    } else {
      assert (a + b)[0] == a[0] && (a + b)[1..] == a[1..] + b;
      EvaluationConcat(e, host, a[1..], b);
    }
  }

  predicate Usable(e: Engine, rule: Rule) { rule.enabled && e.compile(rule.pattern).Some? }

  function UsableRules(e: Engine, rules: seq<Rule>): seq<Rule> {
    if rules == [] then []
    else (if Usable(e, rules[0]) then [rules[0]] else []) + UsableRules(e, rules[1..])
  }

  /** An evaluation names a rule of the list. */
  lemma {:induction false} EvaluationNamesRule(e: Engine, host: string, rules: seq<Rule>)
    ensures var o := Evaluation(e, host, rules);
            o.ruleId.Some? ==> exists i | 0 <= i < |rules| :: rules[i].id == o.ruleId.value
  {
    if rules != [] && !Matches(e, host, rules[0]) {
      EvaluationNamesRule(e, host, rules[1..]);
      if Evaluation(e, host, rules[1..]).ruleId.Some? {
        var i :| 0 <= i < |rules[1..]| && rules[1..][i].id == Evaluation(e, host, rules[1..]).ruleId.value;
        assert rules[i + 1].id == rules[1..][i].id;
      }
    }
  }

  /** Disabled rules and rules that do not compile might as well not be there. */
  lemma {:induction false} UnusableRulesIgnored(e: Engine, host: string, rules: seq<Rule>)
    ensures Evaluation(e, host, rules) == Evaluation(e, host, UsableRules(e, rules))
  {
    if rules != [] {
      UnusableRulesIgnored(e, host, rules[1..]);
      var rest := UsableRules(e, rules[1..]);
      assert ([rules[0]] + rest)[1..] == rest && [] + rest == rest;
    }
  }

  // ----- validation -----

  datatype FieldError = BadPattern | UndefinedTransform(name: string) | UndefinedToken(name: string)

  function Groups(names: seq<string>): set<string> { set name | name in names && name != "" }

  function UndefinedTokens(tokens: seq<string>, groups: set<string>): seq<FieldError> {
    if tokens == [] then []
    else (if tokens[0] in groups then [] else [UndefinedToken(tokens[0])]) + UndefinedTokens(tokens[1..], groups)
  }

  ghost function UndefinedTransforms(names: set<string>, groups: set<string>): set<FieldError> {
    set name | name in names && name !in groups :: UndefinedTransform(name)
  }

  /** The errors of a validation: undefined transforms in some order, then undefined tokens in the
      order of the template. */
  ghost predicate Verdict(
    e: Engine, pattern: string, transforms: map<string, Pipeline>, template: string, errs: seq<FieldError>)
  {
    match e.compile(pattern)
    case None => errs == [BadPattern]
    case Some(re) =>
      var bad := UndefinedTransforms(transforms.Keys, Groups(re.names));
      && |bad| <= |errs| && multiset(errs[..|bad|]) == multiset(bad)
      && errs[|bad|..] == UndefinedTokens(TokensOf(Walk(template)), Groups(re.names))
  }

  method ValidateRule(e: Engine, pattern: string, transforms: map<string, Pipeline>, template: string)
    returns (errs: seq<FieldError>)
    ensures Verdict(e, pattern, transforms, template, errs)
  {
    var compiled := e.compile(pattern);
    if compiled.None? { return [BadPattern]; }
    var names := compiled.value.names;
    var groups: set<string> := {};
    for i := 0 to |names|
      invariant groups == Groups(names[..i])
    {
      if names[i] != "" { groups := groups + {names[i]}; }
    }
    assert names[..|names|] == names;
    errs := CheckTransforms(transforms, groups);
    ghost var transformErrs, bad := errs, UndefinedTransforms(transforms.Keys, groups);
    assert |multiset(transformErrs)| == |transformErrs| && |multiset(bad)| == |bad|;
    var tokens := ExtractTemplateTokens(template);
    for i := 0 to |tokens|
      invariant errs + UndefinedTokens(tokens[i..], groups) == transformErrs + UndefinedTokens(tokens, groups)
    {
      assert tokens[i..][1..] == tokens[i + 1..];
      ghost var rest := UndefinedTokens(tokens[i + 1..], groups);
      if tokens[i] !in groups {
        Associates(errs, [UndefinedToken(tokens[i])], rest);
        errs := errs + [UndefinedToken(tokens[i])];
      } else {
        assert [] + rest == rest;
      }
    }
    assert errs == errs + [];
    assert errs[..|bad|] == transformErrs && errs[|bad|..] == UndefinedTokens(tokens, groups);
  }

  /** The loop over the transforms, in Go's arbitrary map order. */
  method CheckTransforms(transforms: map<string, Pipeline>, groups: set<string>) returns (errs: seq<FieldError>)
    ensures multiset(errs) == multiset(UndefinedTransforms(transforms.Keys, groups))
  {
    errs := [];
    var todo := transforms.Keys;
    ghost var done: set<string> := {};
    while todo != {}
      invariant todo !! done && todo + done == transforms.Keys
      invariant multiset(errs) == multiset(UndefinedTransforms(done, groups))
      decreases todo
    {
      var name :| name in todo;
      ghost var before := UndefinedTransforms(done, groups);
      assert UndefinedTransforms(done + {name}, groups) ==
             if name in groups then before else before + {UndefinedTransform(name)};
      if name !in groups { errs := errs + [UndefinedTransform(name)]; }
      done := done + {name};
      todo := todo - {name};
    }
    assert done == transforms.Keys;
  }

  /** The definition refers to nothing that its pattern does not define. */
  predicate WellDefined(e: Engine, pattern: string, transforms: map<string, Pipeline>, template: string) {
    match e.compile(pattern)
    case None => false
    case Some(re) =>
      transforms.Keys <= Groups(re.names) && forall token <- TokensOf(Walk(template)) :: token in Groups(re.names)
  }

  lemma {:induction false} NoUndefinedTokens(tokens: seq<string>, groups: set<string>)
    ensures UndefinedTokens(tokens, groups) == [] <==> forall token <- tokens :: token in groups
  {
    if tokens != [] {
      NoUndefinedTokens(tokens[1..], groups);
      assert forall token :: token in tokens <==> token == tokens[0] || token in tokens[1..];
    }
  }

  /** The undefined tokens are the tokens without those that name a group: in order, repetitions kept. */
  lemma {:induction false} UndefinedTokensAre(
    tokens: seq<string>, more: seq<string>, token: string, groups: set<string>)
    ensures UndefinedTokens(tokens + more, groups) == UndefinedTokens(tokens, groups) + UndefinedTokens(more, groups)
    ensures UndefinedTokens([token], groups) == if token in groups then [] else [UndefinedToken(token)]
  {
    if tokens == [] {
      assert tokens + more == more;
    } else {
      assert (tokens + more)[0] == tokens[0] && (tokens + more)[1..] == tokens[1..] + more;
      UndefinedTokensAre(tokens[1..], more, token, groups);
      var head := if tokens[0] in groups then [] else [UndefinedToken(tokens[0])];
      Associates(head, UndefinedTokens(tokens[1..], groups), UndefinedTokens(more, groups));
    }
  }

  lemma {:induction false} UndefinedTokensIn(tokens: seq<string>, groups: set<string>, err: FieldError)
    ensures err in UndefinedTokens(tokens, groups)
       <==> err.UndefinedToken? && err.name in tokens && err.name !in groups
  {
    if tokens != [] { UndefinedTokensIn(tokens[1..], groups, err); }
  }

  /** Which errors a validation reports: a transform exactly once. */
  lemma VerdictSays(
    e: Engine, pattern: string, transforms: map<string, Pipeline>, template: string, errs: seq<FieldError>,
    err: FieldError)
    requires Verdict(e, pattern, transforms, template, errs)
    ensures e.compile(pattern).None? ==> errs == [BadPattern]
    ensures e.compile(pattern).Some? ==>
              var groups := Groups(e.compile(pattern).value.names);
              match err
              case BadPattern => err !in errs
              case UndefinedTransform(name) =>
                multiset(errs)[err] == if name in transforms && name !in groups then 1 else 0
              case UndefinedToken(name) => err in errs <==> name in TokensOf(Walk(template)) && name !in groups
  {
    if e.compile(pattern).Some? {
      var groups := Groups(e.compile(pattern).value.names);
      var bad := UndefinedTransforms(transforms.Keys, groups);
      var tokens := UndefinedTokens(TokensOf(Walk(template)), groups);
      assert errs == errs[..|bad|] + tokens;
      UndefinedTokensIn(TokensOf(Walk(template)), groups, err);
      assert err in errs <==> err in multiset(errs[..|bad|]) || err in tokens;
      if err.UndefinedTransform? { assert err !in multiset(tokens); }
    }
  }

  /** Validation reports no error exactly for the well-defined rules. */
  lemma ValidIffWellDefined(
    e: Engine, pattern: string, transforms: map<string, Pipeline>, template: string, errs: seq<FieldError>)
    requires Verdict(e, pattern, transforms, template, errs)
    ensures errs == [] <==> WellDefined(e, pattern, transforms, template)
  {
    match e.compile(pattern)
    case None =>
    case Some(re) =>
      var groups := Groups(re.names);
      var bad := UndefinedTransforms(transforms.Keys, groups);
      NoUndefinedTokens(TokensOf(Walk(template)), groups);
      assert bad == {} <==> transforms.Keys <= groups by {
        forall name | name in transforms && name !in groups ensures UndefinedTransform(name) in bad {}
      }
      assert bad == {} <==> |bad| == 0;
      assert |bad| == 0 ==> errs == errs[|bad|..];
  }

  /** The key as the plain interleaving of literals and values, every token having one. */
  function Interleaved(v: Visits, values: map<string, string>): string
    requires forall token <- TokensOf(v) :: token in values
  {
    match v
    case End => ""
    case Then(Lit(text), tail) => text + Interleaved(tail, values)
    case Then(Token(name), tail) =>
      assert name == TokensOf(v)[0];
      values[name] + Interleaved(tail, values)
  }

  lemma {:induction false} RenderedInterleaved(v: Visits, values: map<string, string>)
    requires forall token <- TokensOf(v) :: token in values
    ensures Rendered(v, values) == Interleaved(v, values)
  {
    if v.Then? {
      if v.head.Token? { assert v.head.name == TokensOf(v)[0]; }
      RenderedInterleaved(v.tail, values);
    }
  }

  /** What validation is for: on every hostname the rule matches, the missing-token fallback is never
      taken exactly when every token names a group. A well-defined rule also leaves no transform
      unused. */
  lemma ValidRulesRenderTotally(e: Engine, rule: Rule, host: string)
    requires Matches(e, host, rule)
    ensures var (re, found) := Match(e, host, rule).value;
            var o := MatchOutcome(e, rule, re, found);
            var tokens := TokensOf(Walk(rule.template));
            && ((forall token <- tokens :: token in o.transformed)
                <==> (forall token <- tokens :: token in Groups(re.names)))
            && (WellDefined(e, rule.pattern, rule.transforms, rule.template) ==>
                  && rule.transforms.Keys <= o.raw.Keys
                  && (forall token <- tokens :: token in o.transformed)
                  && o.key == Interleaved(Walk(rule.template), o.transformed))
  {
    var (re, found) := Match(e, host, rule).value;
    RawCaptureNames(re.names, found);
    var o := MatchOutcome(e, rule, re, found);
    assert forall name :: name in o.transformed <==> name in Groups(re.names);
    if WellDefined(e, rule.pattern, rule.transforms, rule.template) {
      RenderedInterleaved(Walk(rule.template), o.transformed);
    }
  }
}
