/** The pre-flight pass over a resolved graph: cascade, attach or run each dependency of the root. */
module Preflight {
  import opened Options
  import opened Order
  import opened Graphs
  import opened Dag
  import opened Verdicts
  import opened Picks

  datatype LiveDep = LiveDep(id: Id, runID: string)

  /** The parts of an emitted Signal the cascade reads; `cause` is the failed dependency of a cascade. */
  datatype Signal = Signal(sensorID: Id, verdict: string, cause: Option<Id>)

  /** How attaching a blocking dependency can turn out. */
  datatype AttachOutcome = Live(live: LiveDep) | Gated(sig: Signal) | AttachFailed

  datatype RunOutcome = RunOutcome(sig: Signal, code: int)

  /** Everything outside the pass: the files, schema validation, and what attaching or running would do. */
  datatype World = World(
    files: Files,
    sensorValid: Id -> bool,
    cascadeValid: Id -> bool,
    attach: Id -> AttachOutcome,
    run: Id -> RunOutcome
  )

  /** What was done with one dependency. */
  datatype Act = Skipped(id: Id) | AttachedTo(id: Id) | Ran(id: Id)

  /**
   * The dependency that ended the pass with output of its own: an attach that failed, or a run with a non-zero
   * code.
   */
  datatype Stop = NoStop | StartFailed | RunFailed(id: Id)

  datatype DepsResult = DepsResult(
    order: seq<Sensor>,
    signals: map<Id, Signal>,
    liveStack: seq<LiveDep>,
    cascade: Option<Signal>,
    exitCode: int,
    acts: seq<Act>,
    stop: Stop
  )

  function BuildCascadeSignal(skipped: Id, blocker: Signal): Signal {
    Signal(skipped, "error", Some(blocker.sensorID))
  }

  /** The sensor's own attach or run produces a failing signal. */
  predicate OwnFailure(w: World, id: Id) {
    id in w.files &&
    if w.files[id].blocking then w.attach(id).Gated? && Failing(w.attach(id).sig.verdict)
    else Failing(w.run(id).sig.verdict)
  }

  /** The sensor or something it depends on, directly or not, fails on its own. */
  ghost predicate Tainted(w: World, id: Id) {
    exists y :: Reaches(DepGraph(w.files), id, y) && OwnFailure(w, y)
  }

  /** Something the sensor depends on, directly or not, fails on its own. */
  ghost predicate Blocked(w: World, id: Id) {
    exists y :: DependsOn(DepGraph(w.files), id, y) && OwnFailure(w, y)
  }

  /** The act the pass owes to a sensor. */
  ghost function Due(w: World, s: Sensor): Act {
    if Blocked(w, s.id) then Skipped(s.id)
    else if s.file.blocking then AttachedTo(s.id)
    else Ran(s.id)
  }

  /** The pass can get past this dependency without aborting. */
  ghost predicate Passable(w: World, s: Sensor) {
    match Due(w, s)
    case Skipped(id) => w.cascadeValid(id)
    case AttachedTo(id) => !w.attach(id).AttachFailed?
    case Ran(id) => w.run(id).code == 0
  }

  /** How the pass ends at a dependency it cannot get past; an invalid cascade prints nothing of its own. */
  ghost function StopAt(w: World, s: Sensor): Stop {
    match Due(w, s) case Skipped(_) => NoStop case AttachedTo(_) => StartFailed case Ran(id) => RunFailed(id)
  }

  /** The handles of the successful attaches among the acts, in order. */
  function Attached(w: World, acts: seq<Act>): seq<LiveDep> {
    if acts == [] then []
    else
      var last := acts[|acts| - 1];
      Attached(w, acts[..|acts| - 1]) +
      if last.AttachedTo? && w.attach(last.id).Live? then [w.attach(last.id).live] else []
  }

  lemma BlockedByDep(w: World, id: Id)
    ensures Blocked(w, id) <==> exists d :: Edge(DepGraph(w.files), id, d) && Tainted(w, d)
  {
    var g := DepGraph(w.files);
    hide Reaches, DepGraph, OwnFailure;
    if Blocked(w, id) {
      var y :| DependsOn(g, id, y) && OwnFailure(w, y);
      var d :| Edge(g, id, d) && Reaches(g, d, y);
      assert Tainted(w, d);
    }
    if d :| Edge(g, id, d) && Tainted(w, d) {
      var y :| Reaches(g, d, y) && OwnFailure(w, y);
      assert DependsOn(g, id, y);
    }
  }

  lemma TaintedIsOwnOrBlocked(w: World, id: Id)
    ensures Tainted(w, id) <==> OwnFailure(w, id) || Blocked(w, id)
  {
    var g := DepGraph(w.files);
    hide OwnFailure, DepGraph;
    ReachesSelf(g, id);
    if Tainted(w, id) {
      var y :| Reaches(g, id, y) && OwnFailure(w, y);
      ReachesFirstStep(g, id, y);
    }
    if Blocked(w, id) {
      var y :| DependsOn(g, id, y) && OwnFailure(w, y);
      DependsOnReaches(g, id, y);
    }
  }

  /** The recorded signal of the first dependency that failed. */
  function FirstFailing(depIDs: seq<Id>, signals: map<Id, Signal>): Option<Signal> {
    if depIDs == [] then None
    else if depIDs[0] in signals && Failing(signals[depIDs[0]].verdict) then Some(signals[depIDs[0]])
    else FirstFailing(depIDs[1..], signals)
  }

  method FirstFailedDep(depIDs: seq<Id>, signals: map<Id, Signal>) returns (blocker: Option<Signal>)
    ensures blocker == FirstFailing(depIDs, signals)
  {
    for i := 0 to |depIDs|
      invariant FirstFailing(depIDs, signals) == FirstFailing(depIDs[i..], signals)
    {
      if depIDs[i] in signals && Failing(signals[depIDs[i]].verdict) {
        return Some(signals[depIDs[i]]);
      }
      assert depIDs[i..][1..] == depIDs[i + 1..];
    }
    return None;
  }

  /** A blocker is found exactly when some dependency failed; it is the first in the list that did. */
  lemma {:induction false} FirstFailingIsFirst(depIDs: seq<Id>, signals: map<Id, Signal>)
    ensures match FirstFailing(depIDs, signals)
            case None => forall d :: d in depIDs && d in signals ==> !Failing(signals[d].verdict)
            case Some(b) =>
              Failing(b.verdict) && exists i :: IsFirstFailing(depIDs, signals, i) && signals[depIDs[i]] == b
  {
    hide Failing;
    if depIDs != [] {
      FirstFailingIsFirst(depIDs[1..], signals);
      assert forall i :: 1 <= i < |depIDs| ==> depIDs[i] == depIDs[1..][i - 1];
      if depIDs[0] in signals && Failing(signals[depIDs[0]].verdict) {
        assert IsFirstFailing(depIDs, signals, 0);
      } else if FirstFailing(depIDs[1..], signals).Some? {
        var b := FirstFailing(depIDs[1..], signals).value;
        var i :| IsFirstFailing(depIDs[1..], signals, i) && signals[depIDs[1..][i]] == b;
        assert IsFirstFailing(depIDs, signals, i + 1);
      }
    }
  }

  ghost predicate IsFirstFailing(depIDs: seq<Id>, signals: map<Id, Signal>, i: int) {
    && 0 <= i < |depIDs| && depIDs[i] in signals && Failing(signals[depIDs[i]].verdict)
    && forall j :: 0 <= j < i && depIDs[j] in signals ==> !Failing(signals[depIDs[j]].verdict)
  }

  /** The signal a dependency gets, given those of the dependencies before it. */
  function SignalFor(w: World, s: Sensor, signals: map<Id, Signal>): Signal {
    match FirstFailing(s.file.deps, signals)
    case Some(blocker) => BuildCascadeSignal(s.id, blocker)
    case None =>
      if !s.file.blocking then w.run(s.id).sig
      else if w.attach(s.id).Gated? then w.attach(s.id).sig
      else Signal(s.id, "pass", None)
  }

  lemma {:induction false} OtherSignalsDoNotMatter(depIDs: seq<Id>, signals: map<Id, Signal>, id: Id, sig: Signal)
    requires id !in depIDs
    ensures FirstFailing(depIDs, signals[id := sig]) == FirstFailing(depIDs, signals)
  {
    if depIDs != [] { OtherSignalsDoNotMatter(depIDs[1..], signals, id, sig); }
  }

  /**
   * After `n` dependencies: one due act each, and the right signal each, which fails exactly when the sensor is
   * tainted.
   */
  ghost predicate PassInv(w: World, order: seq<Sensor>, n: nat, signals: map<Id, Signal>, acts: seq<Act>) {
    n < |order| && ActsRight(w, order, n, acts) && SignalsRight(w, order, n, signals) &&
    VerdictsRight(w, order, n, signals)
  }

  /** The first `n` sensors were passable and what was due was done. */
  ghost predicate ActsRight(w: World, order: seq<Sensor>, n: nat, acts: seq<Act>)
    requires n <= |order|
  {
    |acts| == n && forall j :: 0 <= j < n ==> Passable(w, order[j]) && acts[j] == Due(w, order[j])
  }

  /** The recorded verdicts fail exactly for the tainted sensors. */
  ghost predicate VerdictsRight(w: World, order: seq<Sensor>, n: nat, signals: map<Id, Signal>)
    requires n <= |order|
  {
    forall j :: 0 <= j < n ==> order[j].id in signals &&
                               (Failing(signals[order[j].id].verdict) <==> Tainted(w, order[j].id))
  }

  /** Exactly the first `n` sensors have a signal, each the one it gets. */
  ghost predicate SignalsRight(w: World, order: seq<Sensor>, n: nat, signals: map<Id, Signal>)
    requires n <= |order|
  {
    && signals.Keys == Elems(Ids(order[..n]))
    && forall j :: 0 <= j < n ==> order[j].id in signals && signals[order[j].id] == SignalFor(w, order[j], signals)
  }

  /** `FirstFailedDep` over the signals so far decides whether the next sensor is blocked. */
  lemma BlockerFound(w: World, target: Id, order: seq<Sensor>, n: nat, signals: map<Id, Signal>, acts: seq<Act>)
    requires IsResolution(w.files, target, order) && PassInv(w, order, n, signals, acts)
    ensures FirstFailing(order[n].file.deps, signals).Some? <==> Blocked(w, order[n].id)
  {
    FirstFailingIsFirst(order[n].file.deps, signals);
    var s := order[n];
    assert s in order;
    assert forall d :: Edge(DepGraph(w.files), s.id, d) <==> d in s.file.deps;
    forall d | d in s.file.deps ensures d in signals && (Failing(signals[d].verdict) <==> Tainted(w, d)) {
      SignalOfDep(w, target, order, n, signals, acts, d);
    }
    BlockedByDep(w, s.id);
    hide *;
  }

  lemma SignalOfDep(w: World, target: Id, order: seq<Sensor>, n: nat, signals: map<Id, Signal>, acts: seq<Act>, d: Id)
    requires IsResolution(w.files, target, order) && PassInv(w, order, n, signals, acts)
    requires d in order[n].file.deps
    ensures d in signals && (Failing(signals[d].verdict) <==> Tainted(w, d))
  {
    hide Tainted, SmallestFirst, Reaches, Restrict, SignalFor;
    var j :| 0 <= j < n && Ids(order)[..n][j] == d;
    assert order[j].id == d;
  }

  lemma PassStep(w: World, target: Id, order: seq<Sensor>, n: nat, signals: map<Id, Signal>, acts: seq<Act>,
                 sig: Signal)
    requires IsResolution(w.files, target, order)
    requires PassInv(w, order, n, signals, acts) && n + 1 < |order| && Passable(w, order[n])
    requires sig == SignalFor(w, order[n], signals) && (Failing(sig.verdict) <==> Tainted(w, order[n].id))
    ensures PassInv(w, order, n + 1, signals[order[n].id := sig], acts + [Due(w, order[n])])
  {
    hide *;
    PassInvParts(w, order, n, signals, acts);
    SignalsRightNext(w, target, order, n, signals, sig);
    IdsDiffer(w.files, target, order, n);
    VerdictsNext(w, order, n, signals, sig);
    ActsNext(w, order, n, acts);
    PassInvFrom(w, order, n + 1, signals[order[n].id := sig], acts + [Due(w, order[n])]);
  }

  lemma PassInvParts(w: World, order: seq<Sensor>, n: nat, signals: map<Id, Signal>, acts: seq<Act>)
    requires PassInv(w, order, n, signals, acts)
    ensures n < |order| && ActsRight(w, order, n, acts) && SignalsRight(w, order, n, signals)
    ensures VerdictsRight(w, order, n, signals)
  {}

  lemma PassInvFrom(w: World, order: seq<Sensor>, n: nat, signals: map<Id, Signal>, acts: seq<Act>)
    requires n < |order| && ActsRight(w, order, n, acts) && SignalsRight(w, order, n, signals)
    requires VerdictsRight(w, order, n, signals)
    ensures PassInv(w, order, n, signals, acts)
  {}

  lemma ActsNext(w: World, order: seq<Sensor>, n: nat, acts: seq<Act>)
    requires n < |order| && ActsRight(w, order, n, acts) && Passable(w, order[n])
    ensures ActsRight(w, order, n + 1, acts + [Due(w, order[n])])
  {
    hide Passable, Due;
  }

  lemma VerdictsNext(w: World, order: seq<Sensor>, n: nat, signals: map<Id, Signal>, sig: Signal)
    requires n < |order| && VerdictsRight(w, order, n, signals) && (Failing(sig.verdict) <==> Tainted(w, order[n].id))
    requires forall j :: 0 <= j < n ==> order[j].id != order[n].id
    ensures VerdictsRight(w, order, n + 1, signals[order[n].id := sig])
  {
    hide Failing, Tainted;
  }

  lemma IdsDiffer(files: Files, target: Id, order: seq<Sensor>, n: nat)
    requires IsResolution(files, target, order) && n < |order|
    ensures forall j :: 0 <= j < n ==> order[j].id != order[n].id
    ensures forall j :: 0 <= j <= n ==> order[n].id !in order[j].file.deps
  {
    hide IsResolution;
    forall j | 0 <= j <= n ensures order[n].id !in order[j].file.deps && (j < n ==> order[j].id != order[n].id) {
      NotRequiredBefore(files, target, order, n, j);
    }
  }

  /** A new signal changes none of the earlier ones: no sensor requires one that comes later. */
  lemma SignalsRightNext(w: World, target: Id, order: seq<Sensor>, n: nat, signals: map<Id, Signal>, sig: Signal)
    requires IsResolution(w.files, target, order) && n < |order| && SignalsRight(w, order, n, signals)
    requires sig == SignalFor(w, order[n], signals)
    ensures SignalsRight(w, order, n + 1, signals[order[n].id := sig])
  {
    IdsDiffer(w.files, target, order, n);
    KnownIds(order, n, signals, sig);
    hide IsResolution, Ids, SignalFor, Elems;
    forall j | 0 <= j < n + 1
      ensures order[j].id in signals[order[n].id := sig] &&
              signals[order[n].id := sig][order[j].id] == SignalFor(w, order[j], signals[order[n].id := sig])
    {
      SignalUnchanged(w, order[j], signals, order[n].id, sig);
    }
  }

  lemma SignalUnchanged(w: World, s: Sensor, signals: map<Id, Signal>, id: Id, sig: Signal)
    requires id !in s.file.deps
    ensures SignalFor(w, s, signals[id := sig]) == SignalFor(w, s, signals)
  {
    OtherSignalsDoNotMatter(s.file.deps, signals, id, sig);
    hide FirstFailing;
  }

  lemma KnownIds(order: seq<Sensor>, n: nat, signals: map<Id, Signal>, sig: Signal)
    requires n < |order| && signals.Keys == Elems(Ids(order[..n]))
    ensures signals[order[n].id := sig].Keys == Elems(Ids(order[..n + 1]))
  {
    assert Ids(order[..n + 1]) == Ids(order[..n]) + [order[n].id];
  }

  lemma NotRequiredBefore(files: Files, target: Id, order: seq<Sensor>, n: nat, j: nat)
    requires IsResolution(files, target, order) && j <= n < |order|
    ensures order[n].id !in order[j].file.deps && (j < n ==> order[j].id != order[n].id)
  {
    hide SmallestFirst, Reaches, Restrict, DepGraph;
    var ids := Ids(order);
    assert forall k :: 0 <= k < j ==> ids[..j][k] != ids[n];
    assert ids[n] == order[n].id && ids[j] == order[j].id;
  }

  lemma NonRootBeforeLast(files: Files, target: Id, order: seq<Sensor>, n: nat)
    requires IsResolution(files, target, order) && n < |order|
    ensures order[n].id == target <==> n == |order| - 1
    ensures order[n].id in files && order[n].file == files[order[n].id] && NoDup(Ids(order))
  {
    hide SmallestFirst, Reaches, Restrict, DepGraph;
    assert order[n] in order;
    assert Ids(order)[n] == order[n].id && Ids(order)[|order| - 1] == target;
  }

  method ValidateSensors(w: World, order: seq<Sensor>) returns (ok: bool)
    ensures ok <==> AllValid(w, order)
  {
    for i := 0 to |order|
      invariant forall j :: 0 <= j < i ==> w.sensorValid(order[j].id)
    {
      if !w.sensorValid(order[i].id) {
        return false;
      }
    }
    return true;
  }

  /** The whole pass succeeds: the graph resolves, every sensor is valid, and every dependency is passable. */
  ghost predicate Completes(w: World, order: seq<Sensor>) {
    AllValid(w, order) && forall j :: 0 <= j < |order| - 1 ==> Passable(w, order[j])
  }

  /** Some resolved order of the target lets the whole pass succeed. */
  ghost predicate CanComplete(w: World, target: Id) {
    exists order :: IsResolution(w.files, target, order) && Completes(w, order)
  }

  ghost predicate AllValid(w: World, order: seq<Sensor>) {
    forall s :: s in order ==> w.sensorValid(s.id)
  }

  /**
   * What a completed pass reports: one due act and the right signal for each dependency, which fails exactly when the
   * dependency is tainted, and the cascade of the root exactly when the root is blocked.
   */
  ghost predicate ReportsCompletely(w: World, target: Id, r: DepsResult) {
    && IsResolution(w.files, target, r.order) && |r.acts| == |r.order| - 1
    && (forall j :: 0 <= j < |r.acts| ==> r.acts[j] == Due(w, r.order[j]))
    && (forall s :: s in r.order && s.id != target ==>
          s.id in r.signals && (Failing(r.signals[s.id].verdict) <==> Tainted(w, s.id)))
    && (r.cascade.Some? <==> Blocked(w, target))
    && r.cascade == CascadeOf(r.order[|r.order| - 1], r.signals)
  }

  /** The cascade signal of a root, which names the first of its dependencies that failed. */
  function CascadeOf(root: Sensor, signals: map<Id, Signal>): (c: Option<Signal>)
    ensures c.Some? ==> Failing(c.value.verdict) && c.value.sensorID == root.id
  {
    match FirstFailing(root.file.deps, signals)
    case Some(blocker) => Some(BuildCascadeSignal(root.id, blocker))
    case None => None
  }

  lemma AbortedEarly(w: World, r: DepsResult)
    requires r.acts == [] && r.liveStack == [] && r.signals == map[]
    ensures ReportsPrefix(w, r)
  {
    assert Ids(r.order[..0]) == [];
  }

  lemma PassStart(w: World, target: Id, order: seq<Sensor>)
    requires IsResolution(w.files, target, order)
    ensures |order| > 0 && PassInv(w, order, 0, map[], [])
  {}

  /** What `Due` and `Passable` come to for the next sensor, and what an impassable one means. */
  lemma DueOf(w: World, order: seq<Sensor>, n: nat)
    requires n < |order| - 1 && order[n].id in w.files && order[n].file == w.files[order[n].id]
    ensures var s := order[n];
            && (Blocked(w, s.id) ==>
                  Due(w, s) == Skipped(s.id) && StopAt(w, s) == NoStop && (Passable(w, s) <==> w.cascadeValid(s.id)))
            && (!Blocked(w, s.id) && s.file.blocking ==>
                  && Due(w, s) == AttachedTo(s.id) && StopAt(w, s) == StartFailed &&
                     (Passable(w, s) <==> !w.attach(s.id).AttachFailed?)
                  && (OwnFailure(w, s.id) <==> w.attach(s.id).Gated? && Failing(w.attach(s.id).sig.verdict)))
            && (!Blocked(w, s.id) && !s.file.blocking ==>
                  && Due(w, s) == Ran(s.id) && StopAt(w, s) == RunFailed(s.id) &&
                     (Passable(w, s) <==> w.run(s.id).code == 0)
                  && (OwnFailure(w, s.id) <==> Failing(w.run(s.id).sig.verdict)))
    ensures !Passable(w, order[n]) ==> !Completes(w, order)
  {}

  lemma CascadeFails(id: Id, blocker: Signal)
    ensures var c := BuildCascadeSignal(id, blocker); c.sensorID == id && Failing(c.verdict)
  {}

  /** The signal of the next sensor in each of the three cases. */
  lemma SignalForIs(w: World, s: Sensor, signals: map<Id, Signal>)
    ensures match FirstFailing(s.file.deps, signals)
            case Some(b) => SignalFor(w, s, signals) == BuildCascadeSignal(s.id, b)
            case None =>
              if !s.file.blocking then SignalFor(w, s, signals) == w.run(s.id).sig
              else if w.attach(s.id).Gated? then SignalFor(w, s, signals) == w.attach(s.id).sig
              else SignalFor(w, s, signals) == Signal(s.id, "pass", None)
  {}

  lemma PassIsNotFailing()
    ensures !Failing("pass")
  {}

  lemma AttachedAppend(w: World, acts: seq<Act>, a: Act)
    ensures Attached(w, acts + [a]) ==
            Attached(w, acts) + if a.AttachedTo? && w.attach(a.id).Live? then [w.attach(a.id).live] else []
  {
    assert (acts + [a])[..|acts + [a]| - 1] == acts;
  }

  lemma PassInvPrefix(w: World, order: seq<Sensor>, n: nat, r: DepsResult)
    requires PassInv(w, order, n, r.signals, r.acts) && r.order == order && n < |order| - 1
    requires r.liveStack == Attached(w, r.acts)
    ensures |r.acts| == n && ReportsPrefix(w, r)
    ensures forall code, stop :: ReportsPrefix(w, r.(exitCode := code, stop := stop))
  {}

  lemma PassDone(w: World, target: Id, r: DepsResult)
    requires IsResolution(w.files, target, r.order) && |r.order| > 0
    requires PassInv(w, r.order, |r.order| - 1, r.signals, r.acts) && r.liveStack == Attached(w, r.acts)
    requires AllValid(w, r.order)
    requires r.cascade.Some? <==> Blocked(w, target)
    requires r.cascade == CascadeOf(r.order[|r.order| - 1], r.signals)
    ensures Completes(w, r.order) && ReportsCompletely(w, target, r) && ReportsPrefix(w, r)
  {
    hide SignalFor, IsResolution, Tainted, Passable, Due, CascadeOf;
    forall s | s in r.order && s.id != target
      ensures s.id in r.signals && (Failing(r.signals[s.id].verdict) <==> Tainted(w, s.id))
    {
      var j :| 0 <= j < |r.order| && r.order[j] == s;
      NonRootBeforeLast(w.files, target, r.order, j);
    }
  }

  /** `acts` are the due acts of dependencies the pass could get past; the signals and the live stack are theirs. */
  ghost predicate ReportsPrefix(w: World, r: DepsResult) {
    && (forall j :: 0 <= j < |r.acts| ==>
          j < |r.order| - 1 && Passable(w, r.order[j]) && r.acts[j] == Due(w, r.order[j]))
    && r.liveStack == Attached(w, r.acts) && |r.acts| <= |r.order| && SignalsRight(w, r.order, |r.acts|, r.signals)
  }

  /**
   * A pass that fails did nothing when the graph does not resolve or a sensor is invalid; otherwise it stopped at the
   * first dependency it could not get past, with the code that dependency gives.
   */
  ghost predicate StopsRightly(w: World, target: Id, r: DepsResult) {
    if r.exitCode == 0 then r.stop == NoStop
    else if r.order == [] || !AllValid(w, r.order) then
      r.stop == NoStop && r.exitCode == 1 && r.acts == []
    else
      && |r.acts| < |r.order| - 1 && !Passable(w, r.order[|r.acts|]) && r.stop == StopAt(w, r.order[|r.acts|])
      && r.exitCode == if r.stop.RunFailed? then w.run(r.stop.id).code else 1
  }

  /** What the pass over the dependencies of `target` comes to. */
  ghost predicate IsPass(w: World, target: Id, r: DepsResult) {
    && (r.exitCode == 0 <==> CanComplete(w, target))
    && (if Resolvable(w.files, target) then IsResolution(w.files, target, r.order) else r.order == [])
    && (r.exitCode == 0 ==> ReportsCompletely(w, target, r))
    && (r.exitCode != 0 ==> r.cascade.None?)
    && StopsRightly(w, target, r) && ReportsPrefix(w, r)
  }

  lemma StoppedAt(w: World, target: Id, r: DepsResult)
    requires r.exitCode != 0 && r.cascade.None? && Resolvable(w.files, target) && IsResolution(w.files, target, r.order)
    requires AllValid(w, r.order)
    requires |r.acts| < |r.order| - 1 && !Passable(w, r.order[|r.acts|]) && r.stop == StopAt(w, r.order[|r.acts|])
    requires r.exitCode == if r.stop.RunFailed? then w.run(r.stop.id).code else 1
    requires ReportsPrefix(w, r)
    ensures IsPass(w, target, r)
  {
    assert !Completes(w, r.order);
    hide IsResolution, Resolvable, Completes, CanComplete, AllValid, ReportsPrefix, Passable, StopAt;
    NotCompleted(w, target, r.order);
  }

  /** No order of the target completes when its one order does not. */
  lemma NotCompleted(w: World, target: Id, order: seq<Sensor>)
    requires IsResolution(w.files, target, order) && !Completes(w, order)
    ensures !CanComplete(w, target)
  {
    hide IsResolution, Completes;
    forall other | IsResolution(w.files, target, other) ensures other == order {
      ResolutionUnique(w.files, target, other, order);
    }
  }

  lemma Unresolved(w: World, target: Id)
    requires !Resolvable(w.files, target)
    ensures IsPass(w, target, DepsResult([], map[], [], None, 1, [], NoStop))
  {
    NoResolution(w.files, target);
    hide IsResolution, Resolvable, Completes;
  }

  lemma NoResolution(files: Files, target: Id)
    requires !Resolvable(files, target)
    ensures forall order :: !IsResolution(files, target, order)
  {
    hide IsResolution, Resolvable;
    forall order ensures !IsResolution(files, target, order) {
      if IsResolution(files, target, order) {
        ResolutionMeansResolvable(files, target, order);
        assert false;
      }
    }
  }

  lemma InvalidSensor(w: World, target: Id, order: seq<Sensor>)
    requires Resolvable(w.files, target) && IsResolution(w.files, target, order)
    requires !AllValid(w, order)
    ensures IsPass(w, target, DepsResult(order, map[], [], None, 1, [], NoStop))
  {
    assert !Completes(w, order);
    hide IsResolution, Resolvable, Completes, CanComplete, AllValid, ReportsPrefix;
    NotCompleted(w, target, order);
    AbortedEarly(w, DepsResult(order, map[], [], None, 1, [], NoStop));
  }

  lemma Completed(w: World, target: Id, r: DepsResult)
    requires r.exitCode == 0 && r.stop == NoStop && Resolvable(w.files, target)
    requires Completes(w, r.order) && ReportsCompletely(w, target, r) && ReportsPrefix(w, r)
    ensures IsPass(w, target, r)
  {
    assert IsResolution(w.files, target, r.order);
    hide IsResolution, Resolvable, Completes;
  }

  method RunDeps(w: World, target: Id) returns (r: DepsResult)
    ensures IsPass(w, target, r)
  {
    hide *;
    var resolved := Resolve(target, w.files);
    if resolved.Err? {
      r := DepsResult([], map[], [], None, 1, [], NoStop);
      Unresolved(w, target);
      return;
    }
    var order := resolved.value;
    var valid := ValidateSensors(w, order);
    if !valid {
      r := DepsResult(order, map[], [], None, 1, [], NoStop);
      InvalidSensor(w, target, order);
      return;
    }
    r := DepsResult(order, map[], [], None, 0, [], NoStop);
    PassStart(w, target, order);
    AbortedEarly(w, r);
    for n := 0 to |order|
      invariant |order| > 0 && r.order == order && r.cascade.None? && r.exitCode == 0 && r.stop == NoStop
      invariant PassInv(w, order, if n == |order| then n - 1 else n, r.signals, r.acts)
      invariant r.liveStack == Attached(w, r.acts)
    {
      var s := order[n];
      NonRootBeforeLast(w.files, target, order, n);
      if s.id == target {
        continue;
      }
      PassInvPrefix(w, order, n, r);
      BlockerFound(w, target, order, n, r.signals, r.acts);
      TaintedIsOwnOrBlocked(w, s.id);
      DueOf(w, order, n);
      var blocker := FirstFailedDep(s.file.deps, r.signals);
      SignalForIs(w, s, r.signals);
      var sig;
      if blocker.Some? {
        sig := BuildCascadeSignal(s.id, blocker.value);
        CascadeFails(s.id, blocker.value);
        if !w.cascadeValid(s.id) {
          r := r.(exitCode := 1);
          StoppedAt(w, target, r);
          return;
        }
        AttachedAppend(w, r.acts, Skipped(s.id));
        r := r.(acts := r.acts + [Skipped(s.id)]);
      } else if s.file.blocking {
        var result := w.attach(s.id);
        if result.AttachFailed? {
          r := r.(exitCode := 1, stop := StartFailed);
          StoppedAt(w, target, r);
          return;
        }
        AttachedAppend(w, r.acts, AttachedTo(s.id));
        r := r.(acts := r.acts + [AttachedTo(s.id)]);
        if result.Gated? {
          sig := result.sig;
        } else {
          r := r.(liveStack := r.liveStack + [result.live]);
          sig := Signal(s.id, "pass", None);
          PassIsNotFailing();
        }
      } else {
        var outcome := w.run(s.id);
        if outcome.code != 0 {
          r := r.(exitCode := outcome.code, stop := RunFailed(s.id));
          StoppedAt(w, target, r);
          return;
        }
        AttachedAppend(w, r.acts, Ran(s.id));
        r := r.(acts := r.acts + [Ran(s.id)]);
        sig := outcome.sig;
      }
      PassStep(w, target, order, n, r.signals, r.acts[..n], sig);
      r := r.(signals := r.signals[s.id := sig]);
    }
    var root := order[|order| - 1];
    BlockerFound(w, target, order, |order| - 1, r.signals, r.acts);
    NonRootBeforeLast(w.files, target, order, |order| - 1);
    var blocker := FirstFailedDep(root.file.deps, r.signals);
    CascadeIs(root, r.signals);
    if blocker.Some? {
      r := r.(cascade := Some(BuildCascadeSignal(root.id, blocker.value)));
    }
    PassDone(w, target, r);
    Completed(w, target, r);
  }

  lemma CascadeIs(root: Sensor, signals: map<Id, Signal>)
    ensures match FirstFailing(root.file.deps, signals)
            case Some(b) => CascadeOf(root, signals) == Some(BuildCascadeSignal(root.id, b))
            case None => CascadeOf(root, signals) == None
  {}

  /** The cascade signal of `id` that blames the dependency at position `i`, or `own` if none failed. */
  ghost predicate IsSignalOf(id: Id, depIDs: seq<Id>, signals: map<Id, Signal>, own: Option<Signal>,
                             sig: Option<Signal>) {
    || (exists i :: IsFirstFailing(depIDs, signals, i) &&
          sig == Some(Signal(id, "error", Some(signals[depIDs[i]].sensorID))))
    || (sig == own && forall d :: d in depIDs && d in signals ==> !Failing(signals[d].verdict))
  }

  /**
   * The signal of each dependency a pass got past: an error that blames the first of its dependencies that failed, or
   * else what its own run or health gate reported, or a pass for one that came up.
   */
  lemma SignalSays(w: World, target: Id, r: DepsResult, j: nat)
    requires IsPass(w, target, r) && j < |r.acts|
    ensures j < |r.order| && r.order[j].id in r.signals
    ensures var s := r.order[j];
            var own := if !s.file.blocking then w.run(s.id).sig
                       else match w.attach(s.id) case Gated(sig) => sig case _ => Signal(s.id, "pass", None);
            IsSignalOf(s.id, s.file.deps, r.signals, Some(own), Some(r.signals[s.id]))
  {
    assert SignalsRight(w, r.order, |r.acts|, r.signals);
    hide IsPass, FirstFailing;
    var s := r.order[j];
    FirstFailingIsFirst(s.file.deps, r.signals);
    assert r.signals[s.id] == SignalFor(w, s, r.signals);
  }

  /** The cascade of the root of a pass that completed. */
  lemma CascadeSays(w: World, target: Id, r: DepsResult)
    requires IsPass(w, target, r) && r.exitCode == 0
    ensures r.order != [] && IsSignalOf(target, r.order[|r.order| - 1].file.deps, r.signals, None, r.cascade)
  {
    hide Resolvable, CanComplete, StopsRightly, Attached, FirstFailing, SignalsRight, SmallestFirst, Reaches, Tainted;
    hide Blocked, Due;
    var root := r.order[|r.order| - 1];
    FirstFailingIsFirst(root.file.deps, r.signals);
    assert root.id == target by { assert Ids(r.order)[|r.order| - 1] == target; }
  }

  /** An act that left a dependency running. */
  function BroughtUp(w: World): Act -> bool {
    (a: Act) => a.AttachedTo? && w.attach(a.id).Live?
  }

  /** The live stack is exactly what the attaches brought up, in the order of the acts. */
  lemma {:induction false} LiveStackIs(w: World, acts: seq<Act>) returns (idx: seq<nat>)
    ensures PicksOut(idx, acts, BroughtUp(w)) && |Attached(w, acts)| == |idx|
    ensures forall k :: 0 <= k < |idx| ==>
              BroughtUp(w)(acts[idx[k]]) && w.attach(acts[idx[k]].id) == Live(Attached(w, acts)[k])
  {
    idx := [];
    if acts != [] {
      var before := LiveStackIs(w, acts[..|acts| - 1]);
      PicksLast(before, acts, BroughtUp(w));
      idx := PickLast(before, acts, BroughtUp(w));
      hide PicksOut;
    }
  }

  /** The pass has one outcome: its contract leaves nothing open. */
  lemma PassIsDetermined(w: World, target: Id, a: DepsResult, b: DepsResult)
    requires IsPass(w, target, a) && IsPass(w, target, b)
    ensures a == b
  {
    SameOrder(w, target, a, b);
    hide *;
    var order := a.order;
    StoppedAlike(w, target, a, b);
    SignalsDetermined(w, target, order, |a.acts|, a.signals, b.signals);
  }

  lemma SameOrder(w: World, target: Id, a: DepsResult, b: DepsResult)
    requires IsPass(w, target, a) && IsPass(w, target, b)
    ensures a.order == b.order
    ensures a.order != [] ==> IsResolution(w.files, target, a.order)
    ensures |a.acts| <= |a.order| && SignalsRight(w, a.order, |a.acts|, a.signals)
    ensures |b.acts| <= |b.order| && SignalsRight(w, b.order, |b.acts|, b.signals)
  {
    hide IsResolution, Resolvable, CanComplete, ReportsCompletely, StopsRightly, SignalsRight, Attached;
    if Resolvable(w.files, target) { ResolutionUnique(w.files, target, a.order, b.order); }
  }

  lemma StoppedAlike(w: World, target: Id, a: DepsResult, b: DepsResult)
    requires IsPass(w, target, a) && IsPass(w, target, b) && a.order == b.order
    ensures a.acts == b.acts && a.liveStack == b.liveStack && a.exitCode == b.exitCode && a.stop == b.stop
    ensures a.signals == b.signals ==> a.cascade == b.cascade
  {
    hide IsResolution, Resolvable, CanComplete, Completes, AllValid, Passable, Due, StopAt, SignalsRight;
    hide Attached, CascadeOf, Tainted, Blocked;
    assert |a.acts| == |b.acts|;
    assert forall j :: 0 <= j < |a.acts| ==> a.acts[j] == b.acts[j];
  }

  lemma {:induction false} SignalsDetermined(w: World, target: Id, order: seq<Sensor>, n: nat, a: map<Id, Signal>,
                                             b: map<Id, Signal>)
    requires order != [] ==> IsResolution(w.files, target, order)
    requires n <= |order| && SignalsRight(w, order, n, a) && SignalsRight(w, order, n, b)
    ensures a == b
  {
    hide SignalFor, IsResolution;
    forall j | 0 <= j < n ensures a[order[j].id] == b[order[j].id] {
      SignalDetermined(w, target, order, n, a, b, j);
    }
    forall d | d in a ensures a[d] == b[d] {
      var j :| 0 <= j < n && Ids(order[..n])[j] == d;
      assert order[j].id == d;
    }
  }

  lemma {:induction false} SignalDetermined(w: World, target: Id, order: seq<Sensor>, n: nat, a: map<Id, Signal>,
                                            b: map<Id, Signal>, j: nat)
    requires IsResolution(w.files, target, order) && j < n <= |order|
    requires SignalsRight(w, order, n, a) && SignalsRight(w, order, n, b)
    ensures order[j].id in a && order[j].id in b && a[order[j].id] == b[order[j].id]
    decreases j
  {
    forall d | d in order[j].file.deps ensures d in a && d in b && a[d] == b[d] {
      var k := IndexOfDep(w.files, target, order, j, d);
      SignalDetermined(w, target, order, n, a, b, k);
    }
    hide IsResolution;
    SameFailing(order[j].file.deps, a, b);
  }

  lemma {:induction false} SameFailing(depIDs: seq<Id>, a: map<Id, Signal>, b: map<Id, Signal>)
    requires forall d :: d in depIDs ==> d in a && d in b && a[d] == b[d]
    ensures FirstFailing(depIDs, a) == FirstFailing(depIDs, b)
  {
    if depIDs != [] { SameFailing(depIDs[1..], a, b); }
  }

  /** A tainted sensor owes its taint to one that was really attached or run in this pass. */
  lemma {:induction false} TaintHasRealSource(w: World, target: Id, order: seq<Sensor>, n: nat) returns (y: Id)
    requires IsResolution(w.files, target, order) && n < |order| && Tainted(w, order[n].id)
    ensures Reaches(DepGraph(w.files), order[n].id, y) && OwnFailure(w, y) && !Blocked(w, y)
  {
    var g := DepGraph(w.files);
    var id := order[n].id;
    TaintedIsOwnOrBlocked(w, id);
    if !Blocked(w, id) {
      ReachesSelf(g, id);
      return id;
    }
    BlockedByDep(w, id);
    var d :| Edge(g, id, d) && Tainted(w, d);
    var j := IndexOfDep(w.files, target, order, n, d);
    y := TaintHasRealSource(w, target, order, j);
    ReachesThroughDep(g, id, d);
  }

  lemma IndexOfDep(files: Files, target: Id, order: seq<Sensor>, n: nat, d: Id) returns (j: nat)
    requires IsResolution(files, target, order) && n < |order| && Edge(DepGraph(files), order[n].id, d)
    ensures j < n && order[j].id == d
  {
    hide SmallestFirst, Reaches, Restrict;
    assert order[n] in order;
    assert d in Ids(order)[..n];
    j :| 0 <= j < n && Ids(order)[..n][j] == d;
  }
}
