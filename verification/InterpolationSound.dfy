/** A sensor the interpolation rules accept does not fail at run time over a step output the rules can see. */
module InterpolationSound {
  import opened Options
  import opened Verdicts
  import opened Jsons
  import opened Template
  import opened StaticRefs
  import opened Steps
  import opened Engine
  import opened Interpolation
  import Evidence

  /** Rules 4, 6 and 7 find nothing to object to. */
  ghost predicate Accepted(steps: seq<StepConfig>) {
    && Unique(steps)
    && forall i, r :: 0 <= i < |steps| && Mentions(Scanned(steps[i]), r) ==> Ordered(steps, i, r) && Declares(steps, r)
  }

  /** Rules 4, 6 and 7, in the order in which a sensor is validated. */
  method ValidateInterpolation(steps: seq<StepConfig>) returns (e: Option<RuleError>)
    ensures e == None <==> Accepted(steps)
  {
    hide Mentions, Scanned, Ordered, Declares, Unique;
    e := RuleStepIDsUnique(steps);
    if e == None {
      e := RuleInterpolationOrder(steps);
      if e == None {
        e := RuleInterpolationDeclared(steps);
      }
    }
  }

  /** The placeholder from `p` to `j` asks for the output `r` of a step, and is written so that the rules see it. */
  ghost predicate Asks(text: string, p: nat, j: nat, r: OutputsRef) {
    && p <= |text| && MatchEnd(text, p) == Some(j)
    && IsAccessor(Expr(text, p, j)) && AsOutputsRef(Expr(text, p, j)) == Some(r)
  }

  ghost predicate Plain(text: string, p: nat, j: nat, r: OutputsRef) {
    Asks(text, p, j, r) && IsIdent(r.key) && OnlyBlanksAround(text, p + 3, j)
  }

  lemma PlainIsMentioned(st: StepConfig, text: string, p: nat, j: nat, r: OutputsRef)
    requires text in Rendered(st) && Plain(text, p, j, r)
    ensures Mentions(Scanned(st), r)
  {
    RenderedIsScanned(st);
    hide Rendered, Scanned, IsAccessor, AsOutputsRef, IsIdent, OnlyBlanksAround, FindAll;
    SeenIff(text, p, j, r);
    FindAllIsComplete(text, 0, r);
    assert text in Scanned(st);
  }

  /** What an accessor for a step output evaluates to. */
  lemma EvaluatesTo(e: string, r: OutputsRef, c: Context)
    requires IsAccessor(e) && AsOutputsRef(e) == Some(r)
    ensures Evaluate(e, c) ==
            if r.stepID !in c.steps then Err(StepNotRun(r.stepID))
            else if r.key !in c.steps[r.stepID].outputs then Err(NoOutput(r.stepID, r.key))
            else Ok(c.steps[r.stepID].outputs[r.key])
  {
    hide IsAccessor, Skip;
    var field := CutAtDot(CutAtDot(e).1.value).1.value;
    LiteralAt(field, 0, OUTPUTS);
    assert field[0] == 'o';
    hide HasAt;
    assert field != "verdict" && field != "severity";
  }

  lemma UniqueIds(steps: seq<StepConfig>)
    requires Unique(steps)
    ensures forall i, j :: 0 <= i < j < |steps| ==> steps[i].id != steps[j].id
  {}

  /** Step `k` can give the output: it declares it and is no assertion. */
  predicate Provides(steps: seq<StepConfig>, k: int, r: OutputsRef) {
    0 <= k < |steps| && steps[k].id == r.stepID && steps[k].kind != "assert" && r.key in steps[k].outputs
  }

  /**
   * With unique ids, in every run, any placeholder for the output of a step resolves exactly when a step that has
   * already run provides it, however the placeholder is written and whether the rules see it or not.
   */
  lemma AskResolvesIff(s: Setup, results: seq<StepResult>, text: string, p: nat, j: nat, r: OutputsRef)
    requires Unique(s.steps) && IsRun(s, results) && GoesOn(results) && |results| <= |s.steps| && Asks(text, p, j, r)
    ensures Evaluate(Expr(text, p, j), ActionsContext(ContextAt(s, results))).Ok? <==>
            exists k :: 0 <= k < |results| && Provides(s.steps, k, r)
  {
    OutputResolvesIff(s, results, Expr(text, p, j), r);
  }

  lemma OutputResolvesIff(s: Setup, results: seq<StepResult>, e: string, r: OutputsRef)
    requires Unique(s.steps) && IsRun(s, results) && GoesOn(results) && |results| <= |s.steps|
    requires IsAccessor(e) && AsOutputsRef(e) == Some(r)
    ensures Evaluate(e, ActionsContext(ContextAt(s, results))).Ok? <==>
            exists k :: 0 <= k < |results| && Provides(s.steps, k, r)
  {
    var c := ActionsContext(ContextAt(s, results));
    assert c.steps.Keys == ResultsByID(s.steps, results).Keys;
    hide ActionsContext, Evaluate, IsAccessor, AsOutputsRef;
    EvaluatesTo(e, r, c);
    ResultsAreNamed(s.steps, results, r.stepID);
    forall k | 0 <= k < |results| && s.steps[k].id == r.stepID
      ensures r.stepID in c.steps && (r.key in c.steps[r.stepID].outputs <==> Provides(s.steps, k, r))
    {
      OutputsOf(s, results, k);
    }
  }

  /** What a step that let the run go on has filled, as a later step sees it. */
  lemma OutputsOf(s: Setup, results: seq<StepResult>, k: nat)
    requires Unique(s.steps) && IsRun(s, results) && GoesOn(results) && k < |results|
    ensures var c, id := ActionsContext(ContextAt(s, results)), s.steps[k].id;
            id in c.steps && c.steps[id].outputs.Keys ==
              if s.steps[k].kind == "assert" then {} else s.steps[k].outputs.Keys
  {
    hide Outcome, Unique, Builds, Failing, ResultsByID;
    assert forall m :: k < m < |results| ==> s.steps[m].id != s.steps[k].id by { UniqueIds(s.steps); }
    ResultOf(s.steps, results, k);
    assert Happens(s, results, k) && !Failing(results[k].verdict);
    GoingOnFillsOutputs(s.steps[k], ContextAt(s, results[..k]), s.world(k), results[k]);
  }

  /** What the placeholder then yields: the output as the step extracted it, or the verdict of the sub-run. */
  lemma AskYields(s: Setup, results: seq<StepResult>, text: string, p: nat, j: nat, r: OutputsRef, k: nat)
    requires Unique(s.steps) && IsRun(s, results) && GoesOn(results) && Asks(text, p, j, r)
    requires k < |results| && Provides(s.steps, k, r)
    ensures var cfg := s.steps[k];
            Evaluate(Expr(text, p, j), ActionsContext(ContextAt(s, results))) ==
              if cfg.kind == "shell" || cfg.kind == "http" then
                Ok(s.world(k).extract(r.key, cfg.outputs[r.key]).GetOr(""))
              else if cfg.outputs[r.key].from == "aggregate.verdict" then Ok(results[k].verdict)
              else Ok("")
  {
    var e, cfg := Expr(text, p, j), s.steps[k];
    hide Evaluate, IsAccessor, AsOutputsRef, Outcome, Unique, Builds, Failing, ResultsByID, Expr, MatchEnd;
    EvaluatesTo(e, r, ActionsContext(ContextAt(s, results)));
    assert forall m :: k < m < |results| ==> s.steps[m].id != cfg.id by { UniqueIds(s.steps); }
    ResultOf(s.steps, results, k);
    assert Happens(s, results, k) && !Failing(results[k].verdict);
    GoingOnFillsOutputs(cfg, ContextAt(s, results[..k]), s.world(k), results[k]);
    GoingOnYields(cfg, ContextAt(s, results[..k]), s.world(k), results[k], r.key);
  }

  /**
   * In every run of an accepted sensor, a plain placeholder of the step that is up next names a step that has
   * already run, and has a value unless that step is an assertion.
   */
  lemma AcceptedResolves(s: Setup, results: seq<StepResult>, text: string, p: nat, j: nat, r: OutputsRef)
    returns (k: nat)
    requires Accepted(s.steps) && IsRun(s, results) && GoesOn(results) && |results| < |s.steps|
    requires text in Rendered(s.steps[|results|]) && Plain(text, p, j, r)
    ensures k < |results| && s.steps[k].id == r.stepID
    ensures Evaluate(Expr(text, p, j), ActionsContext(ContextAt(s, results))).Ok? <==> s.steps[k].kind != "assert"
  {
    hide *;
    k := SourceOf(s, results, text, p, j, r);
    PlainAsks(text, p, j, r);
    AskResolvesIff(s, results, text, p, j, r);
    OnlyProvider(s.steps, |results|, k, r);
  }

  lemma PlainAsks(text: string, p: nat, j: nat, r: OutputsRef)
    requires Plain(text, p, j, r)
    ensures p <= |text| && MatchEnd(text, p) == Some(j) && Asks(text, p, j, r)
  {}

  lemma OnlyProvider(steps: seq<StepConfig>, n: nat, k: nat, r: OutputsRef)
    requires Unique(steps) && k < n <= |steps| && steps[k].id == r.stepID && r.key in steps[k].outputs
    ensures (exists m :: 0 <= m < n && Provides(steps, m, r)) <==> steps[k].kind != "assert"
  {
    assert Provides(steps, k, r) <==> steps[k].kind != "assert";
  }

  /** The order rule and the declaration rule meet in one step. */
  lemma SourceOf(s: Setup, results: seq<StepResult>, text: string, p: nat, j: nat, r: OutputsRef)
    returns (k: nat)
    requires Accepted(s.steps) && |results| < |s.steps|
    requires text in Rendered(s.steps[|results|]) && Plain(text, p, j, r)
    ensures k < |results| && s.steps[k].id == r.stepID && r.key in s.steps[k].outputs && Unique(s.steps)
  {
    PlainIsMentioned(s.steps[|results|], text, p, j, r);
    hide Rendered, Scanned, Plain, Mentions;
    assert Ordered(s.steps, |results|, r) && Declares(s.steps, r);
    var m :| FirstWithID(s.steps, r.stepID, m) && m < |results|;
    assert LastWithID(s.steps, r.stepID, m);
    k := m;
  }

  // ---- Whole templates -------------------------------------------------------------------------------

  /** Every placeholder is a plain request for the output of a step that is no assertion. */
  ghost predicate Clean(steps: seq<StepConfig>, text: string) {
    forall p, j :: 0 <= p <= |text| && MatchEnd(text, p) == Some(j) ==> CleanAt(steps, text, p, j)
  }

  ghost predicate CleanAt(steps: seq<StepConfig>, text: string, p: nat, j: nat) {
    exists r :: Plain(text, p, j, r) && forall k :: 0 <= k < |steps| && steps[k].id == r.stepID ==>
      steps[k].kind != "assert"
  }

  /** An accepted sensor renders every clean template it ever comes to render. */
  lemma CleanTextRenders(s: Setup, results: seq<StepResult>, text: string)
    requires Accepted(s.steps) && IsRun(s, results) && GoesOn(results) && |results| < |s.steps|
    requires text in Rendered(s.steps[|results|]) && Clean(s.steps, text)
    ensures Renders(text, ContextAt(s, results))
  {
    var c, es := ActionsContext(ContextAt(s, results)), Accessors(text, 0);
    RenderOkIff(text, 0, c);
    hide *;
    forall k | 0 <= k < |es| ensures Evaluate(es[k], c).Ok? {
      var p := AccessorsAreMatches(text, 0, k);
      var j := MatchEnd(text, p).value;
      var r := CleanRef(s.steps, text, p, j);
      var n := AcceptedResolves(s, results, text, p, j, r);
    }
    AllOkRenders(text, ContextAt(s, results));
  }

  /** All that a step needs besides its templates. */
  ghost predicate ElseReady(cfg: StepConfig, ec: ExecContext, obs: Observation) {
    if cfg.kind == "shell" then
      && obs.patternsCompile && obs.starts
      && forall k :: k in cfg.inputs && cfg.inputs[k].Obj? ==> NamesFixture(cfg.inputs[k].fields, ec)
    else if cfg.kind == "http" then
      obs.requestBuilds && (cfg.bodyFrom.Some? ==> BodyIsThere(cfg.bodyFrom.value, ec, obs.fixtureReads))
    else cfg.kind == "assert" && cfg.expect_.Some? && cfg.expect_.value.Obj? && "value" in cfg.expect_.value.fields
  }

  ghost predicate NamesFixture(fields: map<string, Json>, ec: ExecContext) {
    exists name :: name != "" && "fixture" in fields && fields["fixture"] == Str(name) && name in ec.fixtures
  }

  /** At most one source is declared, and a declared fixture is there. */
  ghost predicate BodyIsThere(b: BodyFrom, ec: ExecContext, fixtureReads: bool) {
    && !(b.fixture != "" && b.template != "") && !(b.fixture != "" && b.inline.Some?)
    && !(b.template != "" && b.inline.Some?) && (b.fixture != "" ==> b.fixture in ec.fixtures && fixtureReads)
  }

  /**
   * So in an accepted sensor whose templates are clean no step ever stops at a template: a command is started, a
   * request is sent and an assertion is decided exactly when all else is ready.
   */
  lemma CleanStepsGoOn(s: Setup, results: seq<StepResult>)
    requires Accepted(s.steps) && IsRun(s, results) && GoesOn(results) && |results| < |s.steps|
    requires forall text :: text in Rendered(s.steps[|results|]) ==> Clean(s.steps, text)
    ensures var cfg, ec, obs := s.steps[|results|], ContextAt(s, results), s.world(|results|);
            && (cfg.kind == "shell" ==> (ShellStarts(cfg, ec, obs) <==> ElseReady(cfg, ec, obs)))
            && (cfg.kind == "http" ==> (HttpSends(cfg, ec, obs) <==> ElseReady(cfg, ec, obs)))
            && (cfg.kind == "assert" && ElseReady(cfg, ec, obs) ==>
                  AssertVerdict(cfg.expect_.value, ec, obs.matches) == if obs.matches then "pass" else "fail")
  {
    var cfg, ec := s.steps[|results|], ContextAt(s, results);
    forall text | text in Rendered(cfg) ensures Renders(text, ec) {
      CleanTextRenders(s, results, text);
    }
    hide *;
    if cfg.kind == "shell" { RenderedCommand(cfg, ec, s.world(|results|)); }
    if cfg.kind == "http" { RenderedRequest(cfg, ec, s.world(|results|)); }
    if cfg.kind == "assert" { RenderedAssertion(cfg, ec, s.world(|results|)); }
  }

  lemma RenderedCommand(cfg: StepConfig, ec: ExecContext, obs: Observation)
    requires cfg.kind == "shell" && forall text :: text in Rendered(cfg) ==> Renders(text, ec)
    ensures ShellStarts(cfg, ec, obs) <==> ElseReady(cfg, ec, obs)
  {
    hide Renders;
    forall k | k in cfg.inputs
      ensures InputResolves(cfg.inputs[k], ec) <==> (cfg.inputs[k].Obj? ==> NamesFixture(cfg.inputs[k].fields, ec))
    {
      match cfg.inputs[k]
      case Str(t) => assert t in Rendered(cfg);
      case Obj(f) => if "fixture" in f && f["fixture"].Str? { assert f["fixture"] == Str(f["fixture"].str); }
      case _ =>
    }
    assert cfg.run in Rendered(cfg);
    hide InputResolves, NamesFixture;
  }

  lemma RenderedRequest(cfg: StepConfig, ec: ExecContext, obs: Observation)
    requires cfg.kind == "http" && forall text :: text in Rendered(cfg) ==> Renders(text, ec)
    ensures HttpSends(cfg, ec, obs) <==> ElseReady(cfg, ec, obs)
  {
    hide Renders;
    forall k | k in cfg.headers ensures Renders(cfg.headers[k], ec) {
      assert cfg.headers[k] in cfg.headers.Values;
    }
    assert cfg.url in Rendered(cfg);
    assert cfg.bodyFrom.Some? ==> cfg.bodyFrom.value.template in Rendered(cfg);
  }

  lemma RenderedAssertion(cfg: StepConfig, ec: ExecContext, obs: Observation)
    requires cfg.kind == "assert" && forall text :: text in Rendered(cfg) ==> Renders(text, ec)
    ensures ElseReady(cfg, ec, obs) ==>
              AssertVerdict(cfg.expect_.value, ec, obs.matches) == if obs.matches then "pass" else "fail"
  {
    hide Renders;
  }

  /**
   * With unique ids, in every run, a template that asks for nothing but step outputs renders exactly when each of
   * them is provided by a step that has already run.
   */
  lemma OutputsTextRendersIff(s: Setup, results: seq<StepResult>, text: string)
    requires Unique(s.steps) && IsRun(s, results) && GoesOn(results) && |results| <= |s.steps|
    requires forall e :: e in Accessors(text, 0) ==> IsAccessor(e) && AsOutputsRef(e).Some?
    ensures Renders(text, ContextAt(s, results)) <==>
            forall e :: e in Accessors(text, 0) ==> exists k ::
                0 <= k < |results| && Provides(s.steps, k, AsOutputsRef(e).value)
  {
    var c, es := ActionsContext(ContextAt(s, results)), Accessors(text, 0);
    RenderOkIff(text, 0, c);
    hide ActionsContext, IsAccessor, AsOutputsRef, Evaluate, Accessors, Provides, IsRun, Render;
    assert forall k :: 0 <= k < |es| ==> es[k] in es;
    forall e | e in es ensures Evaluate(e, c).Ok? <==> exists k ::
        0 <= k < |results| && Provides(s.steps, k, AsOutputsRef(e).value) {
      OutputResolvesIff(s, results, e, AsOutputsRef(e).value);
    }
  }

  lemma CleanRef(steps: seq<StepConfig>, text: string, p: nat, j: nat) returns (r: OutputsRef)
    requires Clean(steps, text) && p <= |text| && MatchEnd(text, p) == Some(j)
    ensures Plain(text, p, j, r) && forall k :: 0 <= k < |steps| && steps[k].id == r.stepID ==>
            steps[k].kind != "assert"
  {
    hide Plain, MatchEnd;
    assert CleanAt(steps, text, p, j);
    r :| Plain(text, p, j, r) && forall k :: 0 <= k < |steps| && steps[k].id == r.stepID ==> steps[k].kind != "assert";
  }

  lemma AllOkRenders(text: string, ec: ExecContext)
    requires forall k :: 0 <= k < |Accessors(text, 0)| ==> Evaluate(Accessors(text, 0)[k], ActionsContext(ec)).Ok?
    ensures Renders(text, ec)
  {
    RenderOkIff(text, 0, ActionsContext(ec));
    hide Render, Accessors, Evaluate, ActionsContext;
  }

  // ---- What the rules see is there ---------------------------------------------------------------------

  /** The rules find a reference in a text exactly when a plain placeholder of the text asks for it. */
  lemma SeenIffPlain(text: string, r: OutputsRef)
    ensures r in FindAll(text, 0) <==> exists p, j :: Plain(text, p, j, r)
  {
    hide *;
    FindAllIsComplete(text, 0, r);
    if p :| 0 <= p < |text| && FindAt(text, p).Some? && FindAt(text, p).value.ref == r {
      var j := FoundIsPlain(text, p);
    }
    if p, j :| Plain(text, p, j, r) {
      PlainIsFound(text, p, j, r);
    }
  }

  lemma PlainIsFound(text: string, p: nat, j: nat, r: OutputsRef)
    requires Plain(text, p, j, r)
    ensures p < |text| && FindAt(text, p) == Some(Found(r, j + 2))
  {
    SeenIff(text, p, j, r);
    hide FindAt, IsAccessor, AsOutputsRef, OnlyBlanksAround, IsIdent;
  }

  lemma FoundIsPlain(text: string, p: nat) returns (j: nat)
    requires p <= |text| && FindAt(text, p).Some?
    ensures Plain(text, p, j, FindAt(text, p).value.ref)
  {
    hide *;
    var f := FindAt(text, p).value;
    var a, b := PatternAt(text, p, f.ref, f.end);
    PatternParts(text, p, a, b, f.end, f.ref);
    j := f.end - 2;
    SpelledIsAccessor(text, a, b, f.ref);
    AccessorChars(text, a, b);
    BlanksHaveNoBrace(text, p + 3, a);
    BlanksHaveNoBrace(text, b, j);
    BracesAt(text, p, j);
    MatchEndIff(text, p, j);
    TrimmedTo(text, p + 3, j, a, b);
    PlainFrom(text, p, j, a, b, f.ref);
  }

  lemma BracesAt(text: string, p: nat, j: nat)
    requires HasAt(text, p, OPEN) && HasAt(text, j, "}}")
    ensures p + 3 <= |text| && text[p..p + 3] == "${{" && j + 2 <= |text| && text[j..j + 2] == "}}"
  {}

  lemma PlainFrom(text: string, p: nat, j: nat, a: nat, b: nat, r: OutputsRef)
    requires p <= |text| && MatchEnd(text, p) == Some(j) && p + 3 <= a <= b <= j <= |text| && IsIdent(r.key)
    requires TrimStart(text, p + 3, j) == a && TrimEnd(text, p + 3, j) == b && OnlyBlanksAround(text, p + 3, j)
    requires IsAccessor(text[a..b]) && AsOutputsRef(text[a..b]) == Some(r)
    ensures Plain(text, p, j, r)
  {
    hide MatchEnd, IsAccessor, AsOutputsRef, TrimStart, TrimEnd, IsIdent;
  }

  /** What is spelled as a reference is an accessor of that reference. */
  lemma SpelledIsAccessor(s: string, a: nat, b: nat, r: OutputsRef)
    requires SpelledAt(s, a, b, r) && IsIdent(r.stepID) && IsIdent(r.key)
    ensures a < b <= |s| && IsAccessor(s[a..b]) && AsOutputsRef(s[a..b]) == Some(r)
  {
    IdentsAreDotted(r.key);
    AccessorFor(r.stepID, r.key);
    hide IsAccessor, AsOutputsRef, IsIdent, OutputsAccessor;
    SpelledText(s, a, b, r);
  }

  lemma SpelledText(s: string, a: nat, b: nat, r: OutputsRef)
    requires SpelledAt(s, a, b, r)
    ensures a < b <= |s| && s[a..b] == OutputsAccessor(r.stepID, r.key)
  {
    var m := a + 6 + |r.stepID|;
    assert s[a..a + 6] == STEPS && s[m..m + 9] == DOT_OUTPUTS;
    CutAt(s, a, a + 6, b);
    CutAt(s, a + 6, m, b);
    CutAt(s, m, m + 9, b);
  }

  lemma CutAt(s: string, a: nat, m: nat, b: nat)
    requires a <= m <= b <= |s|
    ensures s[a..b] == s[a..m] + s[m..b]
  {}

  /** An accessor has no brace, and no white space at its ends. */
  lemma AccessorChars(s: string, a: nat, b: nat)
    requires a < b <= |s| && IsAccessor(s[a..b])
    ensures !IsSpace(s[a]) && !IsSpace(s[b - 1]) && forall x :: a <= x < b ==> s[x] != '}'
  {
    var e := s[a..b];
    assert forall x :: 0 <= x < |e| ==> IsDottedChar(e[x]);
    assert forall x :: a <= x < b ==> s[x] == e[x - a];
  }

  lemma BlanksHaveNoBrace(s: string, lo: nat, hi: nat)
    requires hi <= |s| && All(s, lo, hi, IsBlank)
    ensures forall x :: lo <= x < hi ==> s[x] != '}'
  {}

  /** Blanks, an accessor and blanks are trimmed to the accessor. */
  lemma TrimmedTo(s: string, lo: nat, hi: nat, a: nat, b: nat)
    requires lo <= a < b <= hi <= |s| && All(s, lo, a, IsBlank) && All(s, b, hi, IsBlank)
    requires !IsSpace(s[a]) && !IsSpace(s[b - 1])
    ensures TrimStart(s, lo, hi) == a && TrimEnd(s, lo, hi) == b && OnlyBlanksAround(s, lo, hi)
  {
    BlanksAreSpaces(s, lo, a);
    BlanksAreSpaces(s, b, hi);
    hide IsSpace, IsBlank;
    assert TrimStart(s, lo, hi) == a;
  }

  // ---- What the rules cannot see -----------------------------------------------------------------------

  /** Any key of identifier characters and dots can be asked for. */
  lemma AccessorFor(id: string, key: string)
    requires IsIdent(id) && All(key, 0, |key|, IsDottedChar)
    ensures IsAccessor(OutputsAccessor(id, key)) && AsOutputsRef(OutputsAccessor(id, key)) == Some(OutputsRef(id, key))
  {
    var e, tail := OutputsAccessor(id, key), DOT_OUTPUTS + key;
    DotOutputsChars(key);
    Spelled(id, key);
    assert IsLetter(e[6]) && All(id, 0, |id|, IsDottedChar);
    StepsThenDot(e);
    CutAfter(id, tail);
    hide IsIdent, IsDottedChar, IsLetter, All;
    DottedTail(e, id, tail);
    SIsLetter();
  }

  lemma Spelled(id: string, key: string)
    requires |id| > 0
    ensures var e, tail := OutputsAccessor(id, key), DOT_OUTPUTS + key;
            e == STEPS + (id + tail) && |e| > 6 && e[..6] == STEPS && e[6..] == id + tail && e[6] == id[0] &&
              e[0] == 's'
    ensures (DOT_OUTPUTS + key)[1..] == OUTPUTS + key && (OUTPUTS + key)[8..] == key
  {
    var e, tail := OutputsAccessor(id, key), DOT_OUTPUTS + key;
    assert e == STEPS + (id + tail);
    assert tail[1..] == OUTPUTS + key;
  }

  lemma SIsLetter()
    ensures IsLetter('s')
  {}

  lemma DottedTail(e: string, id: string, tail: string)
    requires e == STEPS + (id + tail) && All(id, 0, |id|, IsDottedChar) && All(tail, 0, |tail|, IsDottedChar)
    ensures forall x :: 5 < x < |e| ==> IsDottedChar(e[x])
  {
    hide IsDottedChar;
    forall x | 5 < x < |e| ensures IsDottedChar(e[x]) {
      if x < 6 + |id| { assert e[x] == id[x - 6]; } else { assert e[x] == tail[x - 6 - |id|]; }
    }
  }

  lemma DotOutputsChars(key: string)
    requires All(key, 0, |key|, IsDottedChar)
    ensures All(DOT_OUTPUTS + key, 0, |DOT_OUTPUTS + key|, IsDottedChar)
  {
    assert forall x :: 0 <= x < |DOT_OUTPUTS| ==> IsDottedChar(DOT_OUTPUTS[x]);
  }

  lemma StepsThenDot(e: string)
    requires |e| > 6 && e[..6] == STEPS
    ensures Skip(e, 0, IsIdentChar) == 5 && Skip(e, 0, NotDot) == 5 && e[..5] == "steps" && e[5] == '.'
  {
    assert e[0] == e[..6][0] && e[1] == e[..6][1] && e[2] == e[..6][2] && e[3] == e[..6][3] && e[4] == e[..6][4] &&
           e[5] == e[..6][5];
    SkipIs(e, 0, IsIdentChar, 5);
    SkipIs(e, 0, NotDot, 5);
    assert e[..5] == e[..6][..5];
  }

  lemma CutAfter(id: string, tail: string)
    requires IsIdent(id) && |tail| > 0 && tail[0] == '.'
    ensures CutAtDot(id + tail) == (id, Some(tail[1..]))
  {
    var s := id + tail;
    SkipIs(s, 0, NotDot, |id|);
    assert s[..|id|] == id && s[|id| + 1..] == tail[1..];
  }

  /**
   * A placeholder for a key that is no identifier is invisible to the rules; it renders exactly when a step that
   * has already run declares that very key and is no assertion.
   */
  lemma HiddenKey(s: Setup, results: seq<StepResult>, id: string, key: string)
    requires Unique(s.steps) && IsRun(s, results) && GoesOn(results) && |results| <= |s.steps|
    requires IsIdent(id) && All(key, 0, |key|, IsDottedChar) && !IsIdent(key)
    ensures FindAll(Quoted(OutputsAccessor(id, key)), 0) == []
    ensures Renders(Quoted(OutputsAccessor(id, key)), ContextAt(s, results)) <==>
            exists k :: 0 <= k < |results| && Provides(s.steps, k, OutputsRef(id, key))
  {
    hide *;
    AccessorFor(id, key);
    HiddenAccessor(OutputsAccessor(id, key), OutputsRef(id, key));
    QuotedAsks(OutputsAccessor(id, key), OutputsRef(id, key), ContextAt(s, results));
    AskResolvesIff(s, results, Quoted(OutputsAccessor(id, key)), 0, 4 + |OutputsAccessor(id, key)| + 1,
      OutputsRef(id, key));
  }

  /** A single placeholder renders exactly when what it asks for is there. */
  lemma QuotedAsks(e: string, r: OutputsRef, ec: ExecContext)
    requires IsAccessor(e) && AsOutputsRef(e) == Some(r)
    ensures var text, j := Quoted(e), 4 + |e| + 1;
            && |text| == j + 2 && MatchEnd(text, 0) == Some(j) && Asks(text, 0, j, r)
            && (Renders(text, ec) <==> Evaluate(Expr(text, 0, j), ActionsContext(ec)).Ok?)
  {
    var c, j := ActionsContext(ec), 4 + |e| + 1;
    hide Quoted, Render, MatchEnd, Expr, Evaluate, IsAccessor, AsOutputsRef, ActionsContext;
    QuotedMatches(e);
    RenderHole(Quoted(e), 0, j, e, c);
    EvaluateAccessor(e, c);
    RenderAtEnd(Quoted(e), c);
  }

  lemma RenderAtEnd(text: string, c: Context)
    ensures Render(text, |text|, c) == Ok("")
  {}

  lemma HiddenAccessor(e: string, r: OutputsRef)
    requires IsAccessor(e) && AsOutputsRef(e) == Some(r) && !IsIdent(r.key)
    ensures FindAll(Quoted(e), 0) == []
  {
    hide *;
    QuotedMatches(e);
    HiddenAtStart(Quoted(e), 4 + |e| + 1, r);
    NothingSeen(e);
  }

  lemma NothingSeen(e: string)
    requires IsAccessor(e) && FindAt(Quoted(e), 0) == None
    ensures FindAll(Quoted(e), 0) == []
  {
    hide *;
    var text := Quoted(e);
    forall p | 0 < p < |text| ensures FindAt(text, p) == None {
      OneDollar(e, p);
      NoMatchWithoutDollar(text, p);
    }
    NoneFound(text, 0);
  }

  lemma {:induction false} NoneFound(text: string, i: nat)
    requires i <= |text| && forall p :: i <= p < |text| ==> FindAt(text, p) == None
    ensures FindAll(text, i) == []
    decreases |text| - i
  {
    hide FindAt;
    if i < |text| { NoneFound(text, i + 1); }
  }

  lemma EvaluateAccessor(e: string, c: Context)
    requires IsAccessor(e)
    ensures Evaluate(e, c) == ResolveAccessor(e, c)
  {}

  lemma QuotedMatches(e: string)
    requires IsAccessor(e)
    ensures |Quoted(e)| == 4 + |e| + 3 && MatchEnd(Quoted(e), 0) == Some(4 + |e| + 1) &&
            Expr(Quoted(e), 0, 4 + |e| + 1) == e
  {
    hide IsAccessor, MatchEnd, Expr;
    QuotedAt("", e, "");
    assert "" + (Quoted(e) + "") == Quoted(e);
    HoleMatches(Quoted(e), 0, e);
  }

  lemma HiddenAtStart(text: string, j: nat, r: OutputsRef)
    requires MatchEnd(text, 0) == Some(j) && IsAccessor(Expr(text, 0, j)) &&
             AsOutputsRef(Expr(text, 0, j)) == Some(r) && !IsIdent(r.key)
    ensures FindAt(text, 0) == None
  {
    hide *;
    SeenIff(text, 0, j, r);
  }

  lemma OneDollar(e: string, p: nat)
    requires IsAccessor(e) && 0 < p < |Quoted(e)|
    ensures Quoted(e)[p] != '$'
  {
    var text := Quoted(e);
    AccessorDotted(e);
    hide IsAccessor;
    if p < 4 { assert text[p] == "${{ "[p]; }
    else if p < 4 + |e| { assert text[p] == e[p - 4]; }
    else { assert text[p] == " }}"[p - 4 - |e|]; }
  }

  lemma AccessorDotted(e: string)
    requires IsAccessor(e)
    ensures forall x :: 0 <= x < |e| ==> IsDottedChar(e[x])
  {}

  // ---- Two accepted sensors that cannot finish ---------------------------------------------------------

  function Shell(id: string, run: string): StepConfig {
    StepConfig(id, "shell", map[], run, map[], "", "", map[], None, "", None, "", false, map[])
  }

  const DOTTED: seq<StepConfig> := [Shell("a", "true"), Shell("b", Quoted(OutputsAccessor("a", "k.x")))]

  /** A world in which commands exit with 0, print nothing, and assertions match. */
  const CALM: Observation :=
    Observation(true, true, "0", "", [], true, true, None, "pass", "", true, None,
      (k: string, spec: OutputSpec) => None)

  function Calm(steps: seq<StepConfig>): Setup {
    Setup(steps, false, map[], map[], i => CALM)
  }

  /** An output with a dotted key that no step declares passes every rule and fails in every run that comes to it. */
  lemma DottedKeyIsMissed(s: Setup, results: seq<StepResult>)
    requires s.steps == DOTTED && IsRun(s, results) && GoesOn(results) && |results| == 1
    ensures Accepted(s.steps) && !Renders(s.steps[1].run, ContextAt(s, results))
  {
    hide Renders, FindAll, Accepted, Quoted, OutputsAccessor, ContextAt, IsRun, GoesOn, All, IsIdent, Provides;
    KeyIsDotted();
    TwoUnique(s.steps);
    assert s.steps[0] == DOTTED[0] && s.steps[1] == DOTTED[1];
    HiddenKey(s, results, "a", "k.x");
    DottedAccepted();
    assert !Provides(s.steps, 0, OutputsRef("a", "k.x")) by { NothingDeclared(s.steps); }
  }

  lemma TwoUnique(steps: seq<StepConfig>)
    requires |steps| == 2 && steps[0].id == "a" && steps[1].id == "b"
    ensures Unique(steps)
  {}

  lemma NothingDeclared(steps: seq<StepConfig>)
    requires |steps| > 0 && steps[0].outputs == map[]
    ensures forall r :: !Provides(steps, 0, r)
  {}

  /** Such a run exists. */
  lemma DottedRuns() returns (results: seq<StepResult>)
    ensures IsRun(Calm(DOTTED), results) && GoesOn(results) && |results| == 1
  {
    var s := Calm(DOTTED);
    results := [StepResult("pass", true, map[], "", None, [])];
    assert results[..0] == [] && DOTTED[0] == Shell("a", "true");
    TrueRenders(ContextAt(s, []));
    NothingStreamed();
    hide Renders, Evidence.WorstOf;
    assert Extracted(map[], CALM.extract, ShellBase(Shell("a", "true"), CALM), results[0]);
    assert ShellOutcome(Shell("a", "true"), ContextAt(s, []), CALM, results[0]);
    assert Happens(s, results, 0);
  }

  lemma NothingStreamed()
    ensures Evidence.WorstOf([]) == ("pass", "info")
  {
    Evidence.NoWorst();
  }

  lemma TrueRenders(ec: ExecContext)
    ensures Renders("true", ec)
  {
    var s := "true";
    forall x | 0 <= x < |s| ensures !HasAt(s, x, OPEN) {
      LiteralAt(s, x, OPEN);
      assert s[x] != '$';
    }
    RenderText(s, 0, |s|, ActionsContext(ec));
  }

  lemma KeyIsDotted()
    ensures IsIdent("a") && !IsIdent("k.x") && All("k.x", 0, |"k.x"|, IsDottedChar)
  {
    assert !IsIdentChar("k.x"[1]);
  }

  lemma DottedAccepted()
    requires FindAll(DOTTED[1].run, 0) == []
    ensures Accepted(DOTTED)
  {
    hide FindAll, Scanned, Mentions, Ordered, Declares;
    NothingMentioned("a", "true");
    NothingMentioned("b", DOTTED[1].run);
    assert DOTTED[0] == Shell("a", "true") && DOTTED[1] == Shell("b", DOTTED[1].run);
    assert "a" != "b";
  }

  lemma NothingMentioned(id: string, run: string)
    requires FindAll(run, 0) == [] || run == "true"
    ensures forall r :: !Mentions(Scanned(Shell(id, run)), r)
  {
    var st := Shell(id, run);
    assert Scanned(st) == {run, ""};
    assert FindAll("", 0) == [];
    if run == "true" { NothingInTrue(); }
  }

  lemma NothingInTrue()
    ensures FindAll("true", 0) == []
  {
    var run := "true";
    assert forall p :: 0 <= p < 4 ==> run[p] != '$';
    forall p | 0 <= p < |run| ensures FindAt(run, p) == None { NoMatchWithoutDollar(run, p); }
    NoneFound(run, 0);
  }

  /** An assertion that declares an output. */
  const CHECK: StepConfig :=
    Shell("a", "").(kind := "assert", expect_ := Some(Obj(map["value" := Str("")])),
      outputs := map["k" := OutputSpec("stdout", "", "", false)])

  const ASSERTED: seq<StepConfig> := [CHECK, Shell("b", Quoted(OutputsAccessor("a", "k")))]

  /** The declared output of an assertion passes every rule and fails in every run that comes to it. */
  lemma AssertOutputIsMissing(s: Setup, results: seq<StepResult>)
    requires s.steps == ASSERTED && IsRun(s, results) && GoesOn(results) && |results| == 1
    ensures Accepted(s.steps) && !Renders(s.steps[1].run, ContextAt(s, results))
  {
    hide Renders, FindAll, Accepted, Quoted, OutputsAccessor, ContextAt, IsRun, GoesOn, All, IsIdent, IsAccessor,
         AsOutputsRef;
    KeyIsPlain();
    AccessorFor("a", "k");
    TwoUnique(s.steps);
    assert s.steps[0] == CHECK && s.steps[1] == ASSERTED[1];
    var e := OutputsAccessor("a", "k");
    QuotedAsks(e, OutputsRef("a", "k"), ContextAt(s, results));
    AskResolvesIff(s, results, Quoted(e), 0, 4 + |e| + 1, OutputsRef("a", "k"));
    AssertedAccepted();
  }

  /** Such a run exists. */
  lemma AssertedRuns() returns (results: seq<StepResult>)
    ensures IsRun(Calm(ASSERTED), results) && GoesOn(results) && |results| == 1
  {
    var s := Calm(ASSERTED);
    results := [StepResult("pass", true, map[], "", None, [Note("pass", "")])];
    assert results[..0] == [] && ASSERTED[0] == CHECK;
    assert Renders("", ContextAt(s, []));
    hide Renders, Note;
    assert AssertOutcome(CHECK, ContextAt(s, []), CALM, results[0]);
    assert Happens(s, results, 0);
  }

  lemma KeyIsPlain()
    ensures IsIdent("a") && IsIdent("k") && All("k", 0, |"k"|, IsDottedChar)
  {}

  lemma AssertedAccepted()
    ensures Accepted(ASSERTED)
  {
    var r := OutputsRef("a", "k");
    CheckMentionsNothing();
    OnlyReference();
    hide Scanned, Mentions, Quoted, OutputsAccessor;
    assert ASSERTED[0] == CHECK && ASSERTED[1].id == "b" && "a" != "b";
    assert FirstWithID(ASSERTED, "a", 0);
    assert Ordered(ASSERTED, 1, r) && Declares(ASSERTED, r);
  }

  lemma OnlyReference()
    ensures forall x :: Mentions(Scanned(ASSERTED[1]), x) ==> x == OutputsRef("a", "k")
  {
    var st := ASSERTED[1];
    KeyIsPlain();
    AccessorFor("a", "k");
    assert Scanned(st) == {st.run, ""};
    assert FindAll("", 0) == [];
    hide Scanned, Quoted, OutputsAccessor, IsAccessor, AsOutputsRef, FindAll;
    SeenInQuoted(OutputsAccessor("a", "k"), OutputsRef("a", "k"));
  }

  lemma CheckMentionsNothing()
    ensures forall r :: !Mentions(Scanned(CHECK), r)
  {
    var f := map["value" := Str("")];
    assert Strings(Obj(f)) == {""} by {
      assert Strings(f["value"]) == {""};
    }
    assert Scanned(CHECK) == {""};
    assert FindAll("", 0) == [];
  }

  /** The rules see exactly the reference of a plain placeholder. */
  lemma SeenInQuoted(e: string, r: OutputsRef)
    requires IsAccessor(e) && AsOutputsRef(e) == Some(r) && IsIdent(r.key)
    ensures FindAll(Quoted(e), 0) == [r]
  {
    hide *;
    QuotedMatches(e);
    QuotedBlanks(e);
    var j := 4 + |e| + 1;
    SeenIff(Quoted(e), 0, j, r);
    FoundAlone(Quoted(e), r);
  }

  lemma FoundAlone(text: string, r: OutputsRef)
    requires |text| > 0 && FindAt(text, 0) == Some(Found(r, |text|))
    ensures FindAll(text, 0) == [r]
  {
    hide FindAt;
  }

  lemma QuotedBlanks(e: string)
    requires IsAccessor(e)
    ensures |Quoted(e)| == 4 + |e| + 3 && OnlyBlanksAround(Quoted(e), 3, 4 + |e| + 1)
  {
    var s := Quoted(e);
    QuotedAt("", e, "");
    assert "" + (Quoted(e) + "") == Quoted(e);
    HoleEnds(s, 0, e);
    HoleInside(s, 0, e);
    hide IsAccessor, HoleAt, HasAt, IsSpace;
    TrimIs(s, 3, 4, 4 + |e|, 4 + |e| + 1);
  }
}
