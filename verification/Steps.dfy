/** The four kinds of pipeline step and what executing one yields. */
module Steps {
  import opened Options
  import opened Verdicts
  import opened Jsons
  import opened Template
  import Evidence

  type Signal = Evidence.Signal

  datatype OutputSpec = OutputSpec(from: string, regex: string, jsonPath: string, trim: bool)
  datatype BodyFrom = BodyFrom(fixture: string, template: string, inline: Option<Json>)

  datatype StepConfig = StepConfig(
    id: string,
    kind: string,
    inputs: map<string, Json>,
    run: string,
    exitCodeMap: map<string, string>,
    method_: string,
    url: string,
    headers: map<string, string>,
    bodyFrom: Option<BodyFrom>,
    timeout: string,
    expect_: Option<Json>,
    ref: string,
    outputsPassthrough: bool,
    outputs: map<string, OutputSpec>
  )

  datatype StepResult = StepResult(
    verdict: string,
    completed: bool,
    outputs: map<string, string>,
    stderr: string,
    response: Option<Response>,
    signals: seq<Signal>
  )

  datatype ExecContext = ExecContext(
    fixtures: map<string, string>,
    env: map<string, string>,
    steps: map<string, StepResult>
  )

  datatype SubResult = SubResult(verdict: string, signals: seq<Signal>)

  /** What the world outside answers while one step executes. */
  datatype Observation = Observation(
    patternsCompile: bool,
    starts: bool,
    exitCode: string,
    stderr: string,
    streamed: seq<Signal>,
    fixtureReads: bool,
    requestBuilds: bool,
    response: Option<Response>,
    expectVerdict: string,
    rationale: string,
    matches: bool,
    sub: Option<SubResult>,
    extract: (string, OutputSpec) -> Option<string>
  )

  const ABORTED: StepResult := StepResult("error", false, map[], "", None, [])

  function SeverityFor(v: string): string {
    if v == "warn" then "medium" else if v == "fail" then "high" else if v == "error" then "critical" else "info"
  }

  function Note(verdict: string, rationale: string): Signal {
    Evidence.Signal(verdict, SeverityFor(verdict), [rationale])
  }

  function MapExit(m: map<string, string>, code: string): string {
    if code in m then m[code] else if code == "0" then "pass" else "fail"
  }

  /** Earlier results as the templates see them; no step ever records a severity. */
  function ActionsContext(ec: ExecContext): Context {
    Context(ec.fixtures, ec.env,
            map id | id in ec.steps :: ActionStep(ec.steps[id].verdict, "", ec.steps[id].outputs,
              ec.steps[id].response))
  }

  /** Asking for the severity of an earlier step always yields the empty string. */
  lemma SeverityIsEmpty(ec: ExecContext, id: string)
    requires id in ec.steps && '.' !in id
    ensures ResolveAccessor(Spell(OfStep(id, Severity)), ActionsContext(ec)) == Ok("")
  {
    SpelledResolves(OfStep(id, Severity), ActionsContext(ec));
    hide ResolveAccessor, Spell;
  }

  /** Every accessor of an earlier step yields what that step recorded. */
  lemma StepAccessorYields(ec: ExecContext, id: string, f: Field)
    requires id in ec.steps && '.' !in id
    ensures var r := ec.steps[id];
            Gives(ResolveAccessor(Spell(OfStep(id, f)), ActionsContext(ec)),
                  match f
                  case Verdict => Some(r.verdict)
                  case Severity => Some("")
                  case Output(key) => if key in r.outputs then Some(r.outputs[key]) else None
                  case Status => if r.response.Some? then Some(r.response.value.status) else None
                  case Header(name) =>
                    if r.response.Some? && name in r.response.value.headers then Some(r.response.value.headers[name])
                    else None)
  {
    SpelledResolves(OfStep(id, f), ActionsContext(ec));
    hide ResolveAccessor, Spell;
  }

  predicate Renders(s: string, ec: ExecContext) {
    Render(s, 0, ActionsContext(ec)).Ok?
  }

  // ---- Outputs -------------------------------------------------------------------------------------

  ghost predicate AllExtracted(specs: map<string, OutputSpec>, extract: (string, OutputSpec) -> Option<string>) {
    forall k :: k in specs ==> extract(k, specs[k]).Some?
  }

  /** Every declared output is filled in, or the step ends in error with some of them missing. */
  ghost predicate Extracted(specs: map<string, OutputSpec>, extract: (string, OutputSpec) -> Option<string>,
                            base: StepResult, r: StepResult) {
    if AllExtracted(specs, extract) then r == base.(outputs := map k | k in specs :: extract(k, specs[k]).GetOr(""))
    else r == base.(verdict := "error", outputs := r.outputs) && r.outputs.Keys < specs.Keys
  }

  /** The outputs are visited in no particular order; the first that cannot be extracted ends the step. */
  method ExtractOutputs(specs: map<string, OutputSpec>, extract: (string, OutputSpec) -> Option<string>,
                        base: StepResult) returns (r: StepResult)
    requires base.outputs == map[]
    ensures Extracted(specs, extract, base, r)
  {
    var todo := specs.Keys;
    var outputs: map<string, string> := map[];
    while todo != {}
      invariant todo <= specs.Keys && outputs.Keys == specs.Keys - todo
      invariant forall k :: k in outputs ==> extract(k, specs[k]) == Some(outputs[k])
      decreases |todo|
    {
      var k :| k in todo;
      var v := extract(k, specs[k]);
      if v == None {
        assert k in specs.Keys && k !in outputs.Keys;
        return base.(verdict := "error", outputs := outputs);
      }
      outputs, todo := outputs[k := v.value], todo - {k};
    }
    assert outputs == map k | k in specs :: extract(k, specs[k]).GetOr("");
    r := base.(outputs := outputs);
  }

  // ---- Shell ---------------------------------------------------------------------------------------

  predicate InputResolves(v: Json, ec: ExecContext) {
    match v
    case Str(s) => Renders(s, ec)
    case Obj(f) => StringField(f, "fixture") != "" && StringField(f, "fixture") in ec.fixtures
    case _ => true
  }

  method ResolveWith(inputs: map<string, Json>, ec: ExecContext) returns (ok: bool)
    ensures ok <==> forall k :: k in inputs ==> InputResolves(inputs[k], ec)
  {
    var todo := inputs.Keys;
    while todo != {}
      invariant todo <= inputs.Keys && forall k :: k in inputs.Keys - todo ==> InputResolves(inputs[k], ec)
      decreases |todo|
    {
      var k :| k in todo;
      match inputs[k] {
        case Str(s) =>
          var rendered := RenderActions(s, ActionsContext(ec));
          if rendered.Err? {
            assert !InputResolves(inputs[k], ec);
            return false;
          }
        case Obj(f) =>
          var name := StringField(f, "fixture");
          if name == "" || name !in ec.fixtures {
            assert !InputResolves(inputs[k], ec);
            return false;
          }
        case _ =>
      }
      todo := todo - {k};
    }
    ok := true;
  }

  ghost predicate ShellStarts(cfg: StepConfig, ec: ExecContext, obs: Observation) {
    && Renders(cfg.run, ec) && (forall k :: k in cfg.inputs ==> InputResolves(cfg.inputs[k], ec))
    && obs.patternsCompile && obs.starts
  }

  /** The worst of what the exit code and the matched lines say. */
  ghost function ShellBase(cfg: StepConfig, obs: Observation): StepResult {
    StepResult(Worst(MapExit(cfg.exitCodeMap, obs.exitCode), Evidence.WorstOf(obs.streamed).0), true, map[],
      obs.stderr, None, obs.streamed)
  }

  ghost predicate ShellOutcome(cfg: StepConfig, ec: ExecContext, obs: Observation, r: StepResult) {
    if ShellStarts(cfg, ec, obs) then Extracted(cfg.outputs, obs.extract, ShellBase(cfg, obs), r) else r == ABORTED
  }

  method ExecuteShell(cfg: StepConfig, ec: ExecContext, obs: Observation) returns (r: StepResult)
    ensures ShellOutcome(cfg, ec, obs, r)
  {
    hide Extracted, Evidence.WorstOf, Worst, MapExit, Render, InputResolves;
    var rendered := RenderActions(cfg.run, ActionsContext(ec));
    if rendered.Err? {
      return ABORTED;
    }
    var ok := ResolveWith(cfg.inputs, ec);
    if !ok || !obs.patternsCompile || !obs.starts {
      return ABORTED;
    }
    var streamed, _ := Evidence.MaxStreamVerdict(obs.streamed);
    var verdict := Worst(MapExit(cfg.exitCodeMap, obs.exitCode), streamed);
    r := ExtractOutputs(cfg.outputs, obs.extract, StepResult(verdict, true, map[], obs.stderr, None, obs.streamed));
  }

  /**
   * What a command that was started and whose outputs could be taken ends with: the worst of its signals and of its
   * exit code, which the step's own map translates; without an entry 0 passes and anything else fails.
   */
  lemma ShellVerdict(cfg: StepConfig, ec: ExecContext, obs: Observation, r: StepResult)
    requires ShellOutcome(cfg, ec, obs, r) && ShellStarts(cfg, ec, obs) && AllExtracted(cfg.outputs, obs.extract)
    ensures var streamed := Evidence.VerdictsOf(obs.streamed);
            if obs.exitCode in cfg.exitCodeMap then Tops(r.verdict, streamed + {cfg.exitCodeMap[obs.exitCode]})
            else if obs.exitCode == "0" then r.verdict == Evidence.WorstOf(obs.streamed).0 && Tops(r.verdict, streamed)
            else r.verdict == if "error" in streamed then "error" else "fail"
    ensures r.completed && r.stderr == obs.stderr && r.signals == obs.streamed
  {
    Evidence.WorstOfSays(obs.streamed);
    hide Evidence.WorstOf, ShellStarts, AllExtracted;
    var w := Evidence.WorstOf(obs.streamed).0;
    assert r.verdict == Worst(MapExit(cfg.exitCodeMap, obs.exitCode), w);
    WorstTops(w, Evidence.VerdictsOf(obs.streamed), MapExit(cfg.exitCodeMap, obs.exitCode));
  }

  // ---- Http ----------------------------------------------------------------------------------------

  function Declared(b: BodyFrom): nat {
    (if b.fixture != "" then 1 else 0) + (if b.template != "" then 1 else 0) + (if b.inline.Some? then 1 else 0)
  }

  predicate BodyBuilds(b: Option<BodyFrom>, ec: ExecContext, fixtureReads: bool) {
    b.None? || Declared(b.value) == 0 ||
    (Declared(b.value) == 1 &&
     (b.value.fixture != "" ==> b.value.fixture in ec.fixtures && fixtureReads) &&
     (b.value.template != "" ==> Renders(b.value.template, ec)))
  }

  /** The headers are rendered in no particular order. */
  method RenderHeaders(headers: map<string, string>, ec: ExecContext) returns (ok: bool)
    ensures ok <==> forall k :: k in headers ==> Renders(headers[k], ec)
  {
    var todo := headers.Keys;
    while todo != {}
      invariant todo <= headers.Keys && forall k :: k in headers.Keys - todo ==> Renders(headers[k], ec)
      decreases |todo|
    {
      var k :| k in todo;
      var rendered := RenderActions(headers[k], ActionsContext(ec));
      if rendered.Err? {
        assert !Renders(headers[k], ec);
        return false;
      }
      todo := todo - {k};
    }
    ok := true;
  }

  method BuildBody(b: Option<BodyFrom>, ec: ExecContext, fixtureReads: bool) returns (ok: bool)
    ensures ok <==> BodyBuilds(b, ec, fixtureReads)
  {
    if b.None? || Declared(b.value) == 0 {
      return true;
    }
    if Declared(b.value) > 1 {
      return false;
    }
    if b.value.fixture != "" {
      return b.value.fixture in ec.fixtures && fixtureReads;
    }
    if b.value.inline.Some? {
      return true;
    }
    var rendered := RenderActions(b.value.template, ActionsContext(ec));
    ok := rendered.Ok?;
  }

  ghost predicate HttpSends(cfg: StepConfig, ec: ExecContext, obs: Observation) {
    && Renders(cfg.url, ec) && BodyBuilds(cfg.bodyFrom, ec, obs.fixtureReads) && obs.requestBuilds
    && forall k :: k in cfg.headers ==> Renders(cfg.headers[k], ec)
  }

  ghost function HttpBase(obs: Observation): StepResult {
    StepResult(obs.expectVerdict, true, map[], "", obs.response, [Note(obs.expectVerdict, obs.rationale)])
  }

  ghost predicate HttpOutcome(cfg: StepConfig, ec: ExecContext, obs: Observation, r: StepResult) {
    if !HttpSends(cfg, ec, obs) then r == ABORTED
    else if obs.response == None then r == StepResult("error", true, map[], "", None, [Note("error", obs.rationale)])
    else Extracted(cfg.outputs, obs.extract, HttpBase(obs), r)
  }

  method ExecuteHttp(cfg: StepConfig, ec: ExecContext, obs: Observation) returns (r: StepResult)
    ensures HttpOutcome(cfg, ec, obs, r)
  {
    hide Extracted, Note, Render, BodyBuilds;
    var url := RenderActions(cfg.url, ActionsContext(ec));
    if url.Err? {
      return ABORTED;
    }
    var body := BuildBody(cfg.bodyFrom, ec, obs.fixtureReads);
    if !body || !obs.requestBuilds {
      return ABORTED;
    }
    var headers := RenderHeaders(cfg.headers, ec);
    if !headers {
      return ABORTED;
    }
    if obs.response == None {
      return StepResult("error", true, map[], "", None, [Note("error", obs.rationale)]);
    }
    r := ExtractOutputs(cfg.outputs, obs.extract,
                        StepResult(obs.expectVerdict, true, map[], "", obs.response,
                          [Note(obs.expectVerdict, obs.rationale)]));
  }

  // ---- Assert --------------------------------------------------------------------------------------

  /** The verdict of an assertion: error unless there is a value and it renders. */
  function AssertVerdict(expect_: Json, ec: ExecContext, matches: bool): string {
    if !expect_.Obj? || "value" !in expect_.fields then "error"
    else if expect_.fields["value"].Str? && !Renders(expect_.fields["value"].str, ec) then "error"
    else if matches then "pass" else "fail"
  }

  ghost predicate AssertOutcome(cfg: StepConfig, ec: ExecContext, obs: Observation, r: StepResult) {
    cfg.expect_.Some? &&
    var v := AssertVerdict(cfg.expect_.value, ec, obs.matches);
    r == StepResult(v, true, map[], "", None, [Note(v, obs.rationale)])
  }

  method ExecuteAssert(cfg: StepConfig, ec: ExecContext, obs: Observation) returns (r: StepResult)
    requires cfg.expect_.Some?
    ensures AssertOutcome(cfg, ec, obs, r)
  {
    var e := cfg.expect_.value;
    var verdict := if obs.matches then "pass" else "fail";
    if !e.Obj? || "value" !in e.fields {
      verdict := "error";
    } else if e.fields["value"].Str? {
      var rendered := RenderActions(e.fields["value"].str, ActionsContext(ec));
      if rendered.Err? {
        verdict := "error";
      }
    }
    r := StepResult(verdict, true, map[], "", None, [Note(verdict, obs.rationale)]);
  }

  // ---- Sensor --------------------------------------------------------------------------------------

  /** An object input that names a fixture must name one of the pool; everything else is passed on as it is. */
  predicate OverrideResolves(v: Json, ec: ExecContext) {
    v.Obj? && StringField(v.fields, "fixture") != "" ==> StringField(v.fields, "fixture") in ec.fixtures
  }

  function PassedThrough(specs: map<string, OutputSpec>, verdict: string): map<string, string> {
    map k | k in specs :: if specs[k].from == "aggregate.verdict" then verdict else ""
  }

  ghost predicate SensorOutcome(cfg: StepConfig, ec: ExecContext, obs: Observation, r: StepResult) {
    if (exists k :: k in cfg.inputs && !OverrideResolves(cfg.inputs[k], ec)) || obs.sub == None then r == ABORTED
    else
      var sub := obs.sub.value;
      r == StepResult(sub.verdict, true, PassedThrough(cfg.outputs, sub.verdict), "", None,
                      if cfg.outputsPassthrough then sub.signals else [])
  }

  method ExecuteSensor(cfg: StepConfig, ec: ExecContext, obs: Observation) returns (r: StepResult)
    ensures SensorOutcome(cfg, ec, obs, r)
  {
    var todo := cfg.inputs.Keys;
    while todo != {}
      invariant todo <= cfg.inputs.Keys && forall k :: k in cfg.inputs.Keys - todo ==>
                OverrideResolves(cfg.inputs[k], ec)
      decreases |todo|
    {
      var k :| k in todo;
      if !OverrideResolves(cfg.inputs[k], ec) {
        return ABORTED;
      }
      todo := todo - {k};
    }
    if obs.sub == None {
      return ABORTED;
    }
    var sub := obs.sub.value;
    r := StepResult(sub.verdict, true, PassedThrough(cfg.outputs, sub.verdict), "", None,
      if cfg.outputsPassthrough then sub.signals else []);
  }

  // ---- One step ------------------------------------------------------------------------------------

  /** A step of a known kind with the fields that kind cannot do without. */
  predicate Builds(cfg: StepConfig, hasSubrun: bool) {
    if cfg.kind == "shell" then cfg.run != ""
    else if cfg.kind == "http" then cfg.method_ != "" && cfg.url != ""
    else if cfg.kind == "assert" then cfg.expect_.Some? && cfg.inputs == map[]
    else cfg.kind == "sensor" && cfg.ref != "" && hasSubrun
  }

  /** `r` is what executing the step can yield. */
  ghost predicate Outcome(cfg: StepConfig, ec: ExecContext, obs: Observation, r: StepResult) {
    if cfg.kind == "shell" then ShellOutcome(cfg, ec, obs, r)
    else if cfg.kind == "http" then HttpOutcome(cfg, ec, obs, r)
    else if cfg.kind == "assert" then AssertOutcome(cfg, ec, obs, r)
    else SensorOutcome(cfg, ec, obs, r)
  }

  method Execute(cfg: StepConfig, hasSubrun: bool, ec: ExecContext, obs: Observation) returns (r: StepResult)
    requires Builds(cfg, hasSubrun)
    ensures Outcome(cfg, ec, obs, r)
  {
    hide ShellOutcome, HttpOutcome, AssertOutcome, SensorOutcome;
    if cfg.kind == "shell" {
      r := ExecuteShell(cfg, ec, obs);
    } else if cfg.kind == "http" {
      r := ExecuteHttp(cfg, ec, obs);
    } else if cfg.kind == "assert" {
      r := ExecuteAssert(cfg, ec, obs);
    } else {
      r := ExecuteSensor(cfg, ec, obs);
    }
  }

  /**
   * A step that lets the run go on has filled every output it declares, unless it is an assertion, which fills
   * none.
   */
  lemma GoingOnFillsOutputs(cfg: StepConfig, ec: ExecContext, obs: Observation, r: StepResult)
    requires Outcome(cfg, ec, obs, r) && !Failing(r.verdict)
    ensures r.outputs.Keys == if cfg.kind == "assert" then {} else cfg.outputs.Keys
  {
    hide ShellStarts, HttpSends, AllExtracted, AssertVerdict, Note, OverrideResolves;
  }

  /** What such an output is: what was extracted, or for a sub-run its verdict where that was asked for. */
  lemma GoingOnYields(cfg: StepConfig, ec: ExecContext, obs: Observation, r: StepResult, key: string)
    requires Outcome(cfg, ec, obs, r) && !Failing(r.verdict) && key in r.outputs
    ensures key in cfg.outputs && r.outputs[key] ==
              if cfg.kind == "shell" || cfg.kind == "http" then obs.extract(key, cfg.outputs[key]).GetOr("")
              else if cfg.outputs[key].from == "aggregate.verdict" then r.verdict else ""
    ensures cfg.kind == "shell" || cfg.kind == "http" ==> obs.extract(key, cfg.outputs[key]).Some?
  {
    hide ShellStarts, HttpSends, AssertVerdict, Note, OverrideResolves;
  }
}
