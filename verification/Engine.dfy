/** The fail-fast pipeline over the steps of one sensor, its closing aggregate, and who is to blame for a failure. */
module Engine {
  import opened Options
  import opened Verdicts
  import opened Template
  import opened Steps

  datatype Detail = Detail(id: string, kind: string, verdict: string, stderr: string)
  datatype Aggregate = Aggregate(verdict: string, severity: string, steps: seq<Detail>)
  datatype RunResult = BuildFailed(id: string) | Finished(individuals: seq<Signal>, aggregate: Aggregate)

  /** Everything about a run that is fixed before it starts, and the answers of the world step by step. */
  datatype Setup = Setup(
    steps: seq<StepConfig>,
    hasSubrun: bool,
    fixtures: map<string, string>,
    env: map<string, string>,
    world: nat -> Observation
  )

  function DetailOf(cfg: StepConfig, r: StepResult): Detail {
    Detail(cfg.id, cfg.kind, r.verdict, r.stderr)
  }

  /** The results by step id as the next step sees them; a repeated id hides the earlier result. */
  function ResultsByID(steps: seq<StepConfig>, results: seq<StepResult>): map<string, StepResult>
    requires |results| <= |steps|
  {
    if results == [] then map[]
    else
      var n := |results| - 1;
      ResultsByID(steps, results[..n])[steps[n].id := results[n]]
  }

  function ContextAt(s: Setup, results: seq<StepResult>): ExecContext
    requires |results| <= |s.steps|
  {
    ExecContext(s.fixtures, s.env, ResultsByID(s.steps, results))
  }

  /** `results` is how a run of the first steps can go, none of the steps before the last having failed. */
  ghost predicate IsRun(s: Setup, results: seq<StepResult>) {
    && |results| <= |s.steps|
    && forall i :: 0 <= i < |results| ==> Happens(s, results, i) && (i + 1 < |results| ==> !Failing(results[i].verdict))
  }

  ghost predicate Happens(s: Setup, results: seq<StepResult>, i: nat)
    requires i < |results| <= |s.steps|
  {
    Builds(s.steps[i], s.hasSubrun) && Outcome(s.steps[i], ContextAt(s, results[..i]), s.world(i), results[i])
  }

  /** Nothing has failed, so the next step is up. */
  ghost predicate GoesOn(results: seq<StepResult>) {
    forall i :: 0 <= i < |results| ==> !Failing(results[i].verdict)
  }

  function Individuals(results: seq<StepResult>): seq<Signal> {
    if results == [] then [] else Individuals(results[..|results| - 1]) + results[|results| - 1].signals
  }

  function Details(steps: seq<StepConfig>, results: seq<StepResult>): seq<Detail>
    requires |results| <= |steps|
  {
    seq(|results|, i requires 0 <= i < |results| => DetailOf(steps[i], results[i]))
  }

  /** The first verdict no other outranks, pass before everything. */
  ghost predicate IsWorst(v: string, results: seq<StepResult>) {
    && (forall i :: 0 <= i < |results| ==> Rank(results[i].verdict) <= Rank(v))
    && (v == "pass" || (Rank(v) > 0 && exists i :: FirstAtWorst(results, i) && results[i].verdict == v))
  }

  ghost predicate FirstAtWorst(results: seq<StepResult>, i: int) {
    0 <= i < |results| && forall j :: 0 <= j < i ==> Rank(results[j].verdict) < Rank(results[i].verdict)
  }

  /**
   * `run` is what comes of a run with these results: it stopped before a step that cannot be built, or it executed
   * all steps or stopped at a failure and closed with one aggregate of what was executed.
   */
  ghost predicate Explains(s: Setup, results: seq<StepResult>, run: RunResult) {
    && IsRun(s, results)
    && match run
       case BuildFailed(id) =>
         GoesOn(results) && |results| < |s.steps| && !Builds(s.steps[|results|], s.hasSubrun) &&
           id == s.steps[|results|].id
       case Finished(individuals, aggregate) =>
         && (|results| == |s.steps| || !GoesOn(results))
         && individuals == Individuals(results) && aggregate.steps == Details(s.steps, results)
         && aggregate.severity == SeverityFor(aggregate.verdict) && IsWorst(aggregate.verdict, results)
  }

  /**
   * The steps run in order up to and including the first that fails; the stream carries their signals in order and
   * ends with one aggregate that lists exactly the executed steps under their worst verdict.
   */
  method RunSteps(s: Setup) returns (run: RunResult)
    ensures exists results :: Explains(s, results, run)
  {
    hide *;
    var byID: map<string, StepResult> := map[];
    var out: seq<Signal>, details: seq<Detail>, running := [], [], "pass";
    ghost var results: seq<StepResult> := [];
    Nothing(s);
    var i, stopped := 0, false;
    while i < |s.steps| && !stopped
      invariant i == |results| <= |s.steps|
      invariant Progress(s, results, byID, out, details, running)
      invariant stopped <==> !GoesOn(results)
      decreases |s.steps| - i, !stopped
    {
      var cfg := s.steps[i];
      if !Builds(cfg, s.hasSubrun) {
        RunSoFar(s, results, byID, out, details, running);
        NotBuilt(s, results);
        return BuildFailed(cfg.id);
      }
      var r := Execute(cfg, s.hasSubrun, ExecContext(s.fixtures, s.env, byID), s.world(i));
      OneMore(s, results, byID, out, details, running, r);
      byID, out, details := byID[cfg.id := r], out + r.signals, details + [DetailOf(cfg, r)];
      running := Worst(running, r.verdict);
      results := results + [r];
      stopped := Failing(r.verdict);
      i := i + 1;
    }
    RunSoFar(s, results, byID, out, details, running);
    run := Finished(out, Aggregate(running, SeverityFor(running), details));
    AllRun(s, results, run);
  }

  lemma NotBuilt(s: Setup, results: seq<StepResult>)
    requires IsRun(s, results) && GoesOn(results) && |results| < |s.steps| && !Builds(s.steps[|results|], s.hasSubrun)
    ensures Explains(s, results, BuildFailed(s.steps[|results|].id))
  {}

  lemma AllRun(s: Setup, results: seq<StepResult>, run: RunResult)
    requires IsRun(s, results) && run.Finished? && (|results| == |s.steps| || !GoesOn(results))
    requires run.individuals == Individuals(results) && run.aggregate.steps == Details(s.steps, results)
    requires run.aggregate.severity == SeverityFor(run.aggregate.verdict) && IsWorst(run.aggregate.verdict, results)
    ensures Explains(s, results, run)
  {}

  ghost predicate Progress(s: Setup, results: seq<StepResult>, byID: map<string, StepResult>, out: seq<Signal>,
                           details: seq<Detail>, running: string) {
    && IsRun(s, results) && byID == ResultsByID(s.steps, results) && out == Individuals(results)
    && details == Details(s.steps, results) && IsWorst(running, results)
  }

  lemma Nothing(s: Setup)
    ensures Progress(s, [], map[], [], [], "pass") && GoesOn([])
  {}

  lemma RunSoFar(s: Setup, results: seq<StepResult>, byID: map<string, StepResult>, out: seq<Signal>,
                 details: seq<Detail>, running: string)
    requires Progress(s, results, byID, out, details, running)
    ensures IsRun(s, results) && |results| <= |s.steps|
    ensures out == Individuals(results) && details == Details(s.steps, results) && IsWorst(running, results)
  {}

  lemma OneMore(s: Setup, results: seq<StepResult>, byID: map<string, StepResult>, out: seq<Signal>,
                details: seq<Detail>, running: string, r: StepResult)
    requires Progress(s, results, byID, out, details, running) && GoesOn(results) && |results| < |s.steps|
    requires var i := |results|;
             Builds(s.steps[i], s.hasSubrun) && Outcome(s.steps[i], ExecContext(s.fixtures, s.env, byID), s.world(i), r)
    ensures var cfg := s.steps[|results|];
            Progress(s, results + [r], byID[cfg.id := r], out + r.signals, details + [DetailOf(cfg, r)],
              Worst(running, r.verdict))
    ensures GoesOn(results + [r]) <==> !Failing(r.verdict)
  {
    hide Outcome, Builds, Failing, DetailOf;
    var n, longer := |results|, results + [r];
    assert longer[..n] == results;
    assert ResultsByID(s.steps, longer) == byID[s.steps[n].id := r];
    WorstNext(running, results, r);
    GoesOnNext(results, r);
    assert IsRun(s, longer) by {
      forall i | 0 <= i < n ensures Happens(s, longer, i) {
        assert Happens(s, results, i);
        assert longer[..i] == results[..i];
      }
    }
  }

  lemma GoesOnNext(results: seq<StepResult>, r: StepResult)
    ensures GoesOn(results + [r]) <==> GoesOn(results) && !Failing(r.verdict)
  {
    hide Failing;
    assert (results + [r])[|results|] == r;
    assert forall i :: 0 <= i < |results| ==> (results + [r])[i] == results[i];
  }

  lemma WorstNext(v: string, results: seq<StepResult>, r: StepResult)
    requires IsWorst(v, results)
    ensures IsWorst(Worst(v, r.verdict), results + [r])
  {
    hide Rank;
    var longer, w := results + [r], Worst(v, r.verdict);
    if w == v && v != "pass" {
      var i :| FirstAtWorst(results, i) && results[i].verdict == v;
      assert FirstAtWorst(longer, i) && longer[i].verdict == w;
    } else if w != v {
      assert FirstAtWorst(longer, |results|) && longer[|results|].verdict == w;
    }
  }

  // ---- What a run says -----------------------------------------------------------------------------

  /** An earlier result is seen under its step's id, unless a later one has the same id. */
  lemma {:induction false} ResultOf(steps: seq<StepConfig>, results: seq<StepResult>, k: nat)
    requires k < |results| <= |steps| && forall m :: k < m < |results| ==> steps[m].id != steps[k].id
    ensures steps[k].id in ResultsByID(steps, results) && ResultsByID(steps, results)[steps[k].id] == results[k]
  {
    var n := |results| - 1;
    if k < n {
      ResultOf(steps, results[..n], k);
    }
  }

  lemma {:induction false} ResultsAreNamed(steps: seq<StepConfig>, results: seq<StepResult>, id: string)
    requires |results| <= |steps|
    ensures id in ResultsByID(steps, results) <==> exists k :: 0 <= k < |results| && steps[k].id == id
  {
    if results != [] {
      ResultsAreNamed(steps, results[..|results| - 1], id);
    }
  }

  /** At every step templates see the fixtures and the environment of the run. */
  lemma TemplatesSee(s: Setup, results: seq<StepResult>, name: string)
    requires |results| <= |s.steps| && name != ""
    ensures var c := ActionsContext(ContextAt(s, results));
            && Gives(ResolveAccessor(Spell(FixturePath(name)), c),
                     if name in s.fixtures then Some(s.fixtures[name]) else None)
            && Gives(ResolveAccessor(Spell(EnvVar(name)), c), if name in s.env then Some(s.env[name]) else None)
  {
    SpelledResolves(FixturePath(name), ActionsContext(ContextAt(s, results)));
    SpelledResolves(EnvVar(name), ActionsContext(ContextAt(s, results)));
    hide ResolveAccessor, Spell;
  }

  /** The stream of a run is that of its beginning followed by that of the rest, and of one step its signals. */
  lemma {:induction false} IndividualsSplit(a: seq<StepResult>, b: seq<StepResult>)
    ensures Individuals(a + b) == Individuals(a) + Individuals(b)
    ensures |a| == 1 ==> Individuals(a) == a[0].signals
  {
    if |a| == 1 {
      assert a[..0] == [];
    }
    if b == [] {
      assert a + b == a;
    } else {
      var init := b[..|b| - 1];
      IndividualsSplit(a, init);
      assert (a + b)[..|a + b| - 1] == a + init;
      assert Individuals(a + b) == Individuals(a + init) + b[|b| - 1].signals;
      assert Individuals(b) == Individuals(init) + b[|b| - 1].signals;
      hide Individuals;
    }
  }

  /** The aggregate of a run spelled out: one line per executed step, their worst verdict, and its severity. */
  lemma AggregateSays(s: Setup, results: seq<StepResult>, run: RunResult)
    requires Explains(s, results, run) && run.Finished?
    ensures var a := run.aggregate;
            && Tops(a.verdict, set r | r in results :: r.verdict)
            && (a.verdict == "error" ==> a.severity == "critical") && (a.verdict == "fail" ==> a.severity == "high")
            && (a.verdict == "warn" ==> a.severity == "medium")
            && (a.verdict !in {"error", "fail", "warn"} ==> a.verdict == "pass" && a.severity == "info")
            && |a.steps| == |results|
            && forall i :: 0 <= i < |results| ==>
                 a.steps[i] == Detail(s.steps[i].id, s.steps[i].kind, results[i].verdict, results[i].stderr)
  {
    var a := run.aggregate;
    AggregateVerdict(a.verdict, results);
    assert IsWorst(a.verdict, results);
    assert a.severity == SeverityFor(a.verdict) && a.steps == Details(s.steps, results);
    hide IsRun, Happens, Individuals, IsWorst, Tops;
  }

  lemma AggregateVerdict(v: string, results: seq<StepResult>)
    requires IsWorst(v, results)
    ensures Tops(v, set r | r in results :: r.verdict) && v in {"pass", "warn", "fail", "error"}
  {
    var vs := set r | r in results :: r.verdict;
    if v != "pass" {
      var i :| FirstAtWorst(results, i) && results[i].verdict == v;
      assert results[i] in results;
    }
    TopsFrom(v, vs);
  }

  /** The step lacks what its kind needs, or is of no known kind. */
  ghost predicate Lacks(cfg: StepConfig, hasSubrun: bool) {
    || (cfg.kind == "shell" && cfg.run == "") || (cfg.kind == "http" && (cfg.method_ == "" || cfg.url == ""))
    || (cfg.kind == "assert" && (cfg.expect_.None? || cfg.inputs != map[]))
    || (cfg.kind == "sensor" && (cfg.ref == "" || !hasSubrun))
    || cfg.kind !in {"shell", "http", "assert", "sensor"}
  }

  /** A run stops without an aggregate exactly before a step that lacks something; it has executed none such. */
  lemma StopsBeforeLacking(s: Setup, results: seq<StepResult>, run: RunResult)
    requires Explains(s, results, run)
    ensures forall i :: 0 <= i < |results| ==> !Lacks(s.steps[i], s.hasSubrun)
    ensures run.BuildFailed? <==> GoesOn(results) && |results| < |s.steps|
    ensures run.BuildFailed? ==> Lacks(s.steps[|results|], s.hasSubrun) && run.id == s.steps[|results|].id
  {
    hide Outcome;
    forall i | 0 <= i < |results| ensures !Lacks(s.steps[i], s.hasSubrun) {
      assert Happens(s, results, i);
    }
    hide Happens;
  }

  /**
   * A command that exits with a code other than 0 that its step does not map ends the run: the step has failed,
   * whatever its output says and whether or not its outputs can be taken.
   */
  lemma FailedCommandStops(s: Setup, results: seq<StepResult>, i: nat)
    requires IsRun(s, results) && i < |results| && s.steps[i].kind == "shell"
    requires ShellStarts(s.steps[i], ContextAt(s, results[..i]), s.world(i))
    requires s.world(i).exitCode !in s.steps[i].exitCodeMap && s.world(i).exitCode != "0"
    ensures results[i].verdict in {"fail", "error"} && |results| == i + 1
  {
    var cfg, ec, obs := s.steps[i], ContextAt(s, results[..i]), s.world(i);
    assert Happens(s, results, i);
    hide ShellStarts;
    if AllExtracted(cfg.outputs, obs.extract) { ShellVerdict(cfg, ec, obs, results[i]); }
  }

  // ---- Blame ---------------------------------------------------------------------------------------

  /** The last listed step whose verdict is fail or error. */
  method FailingStep(steps: seq<Detail>) returns (d: Option<Detail>)
    ensures IsBlamed(steps, d)
  {
    var i := |steps|;
    while i > 0
      invariant 0 <= i <= |steps| && forall j :: i <= j < |steps| ==> !Failing(steps[j].verdict)
    {
      i := i - 1;
      if Failing(steps[i].verdict) {
        assert LastFailing(steps, i);
        return Some(steps[i]);
      }
    }
    d := None;
  }

  ghost predicate LastFailing(steps: seq<Detail>, i: int) {
    0 <= i < |steps| && forall j :: i < j < |steps| ==> !Failing(steps[j].verdict)
  }

  /** `d` is the last failing step of the list, or there is none. */
  ghost predicate IsBlamed(steps: seq<Detail>, d: Option<Detail>) {
    match d
    case Some(x) => Failing(x.verdict) && exists i :: LastFailing(steps, i) && steps[i] == x
    case None => forall j :: 0 <= j < |steps| ==> !Failing(steps[j].verdict)
  }

  /**
   * On the aggregate of a run the blamed step is the last one listed exactly when the aggregate fails, and
   * otherwise nobody.
   */
  lemma BlameMatchesAggregate(s: Setup, results: seq<StepResult>, run: RunResult, a: Aggregate, d: Option<Detail>)
    requires Explains(s, results, run) && run.Finished? && a == run.aggregate
    requires IsBlamed(a.steps, d)
    ensures Failing(a.verdict) <==> d.Some?
    ensures Failing(a.verdict) ==> d == Some(a.steps[|a.steps| - 1]) && a.verdict == d.value.verdict
  {
    hide Happens;
    FailingRank(a.verdict);
    forall i | 0 <= i < |results| ensures Failing(results[i].verdict) <==> Rank(results[i].verdict) >= 2 {
      FailingRank(results[i].verdict);
    }
    hide Rank, Failing;
    assert forall i :: 0 <= i < |results| ==> a.steps[i].verdict == results[i].verdict;
    PassIsNoFailure();
  }

  lemma FailingRank(v: string)
    ensures Failing(v) <==> Rank(v) >= 2
  {}

  lemma PassIsNoFailure()
    ensures !Failing("pass") && Rank("pass") == 0
  {}
}
