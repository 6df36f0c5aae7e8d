/**
 * The three concurrent tasks around a root run: the root itself, the poller that watches its live dependencies, and
 * the forwarder between them. Channel operations are the atomic steps; a schedule is any sequence of enabled steps.
 */
module DeathWatch {
  import opened Options
  import opened Order
  import opened Dag
  import opened Preflight
  import opened RunWithDeps

  // ---- One poll ------------------------------------------------------------------------------

  datatype Watched = Watched(runID: string, pid: int, exitRecorded: bool)

  ghost predicate IsEntryOf(registry: seq<Watched>, runID: string, k: nat) {
    k < |registry| && registry[k].runID == runID && forall j :: 0 <= j < k ==> registry[j].runID != runID
  }

  /** The diagnosis of one dependency: no entry, an exit on record, a dead process, or none of these. */
  ghost predicate Diagnosed(registry: seq<Watched>, alive: int -> bool, runID: string, reason: Option<string>) {
    if forall j :: 0 <= j < |registry| ==> registry[j].runID != runID then reason == Some("registry_entry_missing")
    else exists k: nat :: IsEntryOf(registry, runID, k) &&
           reason == if registry[k].exitRecorded then Some("subprocess_exit_recorded")
                     else if !alive(registry[k].pid) then Some("subprocess_died")
                     else None
  }

  method Diagnose(registry: seq<Watched>, alive: int -> bool, runID: string) returns (reason: Option<string>)
    ensures Diagnosed(registry, alive, runID, reason)
  {
    for j := 0 to |registry|
      invariant forall i :: 0 <= i < j ==> registry[i].runID != runID
    {
      if registry[j].runID == runID {
        assert IsEntryOf(registry, runID, j);
        if registry[j].exitRecorded {
          return Some("subprocess_exit_recorded");
        }
        if !alive(registry[j].pid) {
          return Some("subprocess_died");
        }
        return None;
      }
    }
    return Some("registry_entry_missing");
  }

  /** `death` is the first dead dependency in stack order, with its diagnosis. */
  ghost predicate IsFirstDeath(live: seq<LiveDep>, registry: seq<Watched>, alive: int -> bool,
                               death: Option<DepDeath>) {
    if death.None? then forall i :: 0 <= i < |live| ==> Diagnosed(registry, alive, live[i].runID, None)
    else exists i :: 0 <= i < |live| && death.value.depID == live[i].id
                     && Diagnosed(registry, alive, live[i].runID, Some(death.value.reason))
                     && forall j :: 0 <= j < i ==> Diagnosed(registry, alive, live[j].runID, None)
  }

  method PollOnce(live: seq<LiveDep>, registry: seq<Watched>, alive: int -> bool) returns (death: Option<DepDeath>)
    ensures IsFirstDeath(live, registry, alive, death)
  {
    hide Diagnosed;
    for i := 0 to |live|
      invariant forall j :: 0 <= j < i ==> Diagnosed(registry, alive, live[j].runID, None)
    {
      var reason := Diagnose(registry, alive, live[i].runID);
      if reason.Some? {
        return Some(DepDeath(live[i].id, reason.value));
      }
    }
    return None;
  }

  // ---- The protocol --------------------------------------------------------------------------

  datatype PollerAt = PollWaiting | PollSending(d: DepDeath) | PollClosing | PollStopped
  datatype ForwarderAt =
    | FwdSelecting | FwdSetting(d: DepDeath) | FwdFlagging | FwdCancelling | FwdDraining | FwdSignalling | FwdFinished
  datatype RootAt = RootRunning | RootCancelling | RootJoining | RootReading | RootOver

  datatype State = State(
    ctxDone: bool,
    buffer: Option<DepDeath>,   // deathCh, capacity one
    closed: bool,
    poller: PollerAt,
    forwarder: ForwarderAt,
    root: RootAt,
    depDeath: Option<DepDeath>,
    depDeathSet: bool,
    deathDone: bool,
    seen: Option<DepDeath>,     // what the root read
    sends: nat
  )

  datatype Step =
    | PollQuiet | PollDeath(live: seq<LiveDep>, registry: seq<Watched>, alive: int -> bool, d: DepDeath)
    | PollCtx | PollSend | PollClose
    | FwdReceive | FwdReceiveClosed | FwdCtx | FwdDrain | FwdSet | FwdFlag | FwdCancel | FwdSignal
    | RootReturn | RootCancel | RootJoin | RootRead
    | ParentCancel

  function Initial(live: seq<LiveDep>): State {
    State(false, None, live == [], if live == [] then PollStopped else PollWaiting,
          FwdSelecting, RootRunning, None, false, false, None, 0)
  }

  ghost predicate Enabled(live: seq<LiveDep>, s: State, t: Step) {
    match t
    case PollQuiet => s.poller.PollWaiting?
    case PollDeath(l, registry, alive, d) => s.poller.PollWaiting? && l == live &&
      IsFirstDeath(live, registry, alive, Some(d))
    case PollCtx => s.poller.PollWaiting? && s.ctxDone
    case PollSend => s.poller.PollSending? && s.buffer.None?
    case PollClose => s.poller.PollClosing?
    case FwdReceive => s.forwarder.FwdSelecting? && s.buffer.Some?
    case FwdReceiveClosed => s.forwarder.FwdSelecting? && s.buffer.None? && s.closed
    case FwdCtx => s.forwarder.FwdSelecting? && s.ctxDone
    case FwdDrain => s.forwarder.FwdDraining? && (s.buffer.Some? || s.closed)
    case FwdSet => s.forwarder.FwdSetting?
    case FwdFlag => s.forwarder.FwdFlagging?
    case FwdCancel => s.forwarder.FwdCancelling?
    case FwdSignal => s.forwarder.FwdSignalling?
    case RootReturn => s.root.RootRunning?
    case RootCancel => s.root.RootCancelling?
    case RootJoin => s.root.RootJoining? && s.deathDone
    case RootRead => s.root.RootReading?
    case ParentCancel => !s.ctxDone
  }

  ghost function Next(s: State, t: Step): State {
    match t
    case PollQuiet => s
    case PollDeath(_, _, _, d) => s.(poller := PollSending(d))
    case PollCtx => s.(poller := PollClosing)
    case PollSend =>
      if s.poller.PollSending? then s.(buffer := Some(s.poller.d), sends := s.sends + 1, poller := PollClosing) else s
    case PollClose => s.(closed := true, poller := PollStopped)
    case FwdReceive => if s.buffer.Some? then s.(buffer := None, forwarder := FwdSetting(s.buffer.value)) else s
    case FwdReceiveClosed => s.(forwarder := FwdSignalling)
    case FwdCtx => s.(forwarder := FwdDraining)
    case FwdDrain => s.(buffer := None, forwarder := FwdSignalling)
    case FwdSet => if s.forwarder.FwdSetting? then s.(depDeath := Some(s.forwarder.d), forwarder := FwdFlagging) else s
    case FwdFlag => s.(depDeathSet := true, forwarder := FwdCancelling)
    case FwdCancel => s.(ctxDone := true, forwarder := FwdSignalling)
    case FwdSignal => s.(deathDone := true, forwarder := FwdFinished)
    case RootReturn => s.(root := RootCancelling)
    case RootCancel => s.(ctxDone := true, root := RootJoining)
    case RootJoin => s.(root := RootReading)
    case RootRead => s.(seen := if s.depDeathSet then s.depDeath else None, root := RootOver)
    case ParentCancel => s.(ctxDone := true)
  }

  /** A run: the states passed through and the step taken in each. */
  ghost predicate IsRun(live: seq<LiveDep>, ss: seq<State>, ts: seq<Step>) {
    && |ss| == |ts| + 1 && ss[0] == Initial(live)
    && forall i :: 0 <= i < |ts| ==> Enabled(live, ss[i], ts[i]) && ss[i + 1] == Next(ss[i], ts[i])
  }

  predicate Names(live: seq<LiveDep>, d: DepDeath) {
    exists i :: 0 <= i < |live| && live[i].id == d.depID
  }

  ghost predicate Inv(live: seq<LiveDep>, s: State) {
    && (s.poller.PollSending? ==> Names(live, s.poller.d) && s.buffer.None? && s.sends == 0)
    && (s.buffer.Some? ==> Names(live, s.buffer.value) && s.sends == 1 && !s.poller.PollWaiting?)
    && (s.poller.PollWaiting? ==> s.sends == 0) && s.sends <= 1
    && (s.closed <==> s.poller.PollStopped?)
    && (s.forwarder.FwdSetting? ==> Names(live, s.forwarder.d) && s.sends == 1 && s.buffer.None?)
    && (s.depDeath.Some? ==> Names(live, s.depDeath.value) && s.sends == 1)
    && (s.depDeath.Some? <==> s.forwarder.FwdFlagging? || s.forwarder.FwdCancelling? || s.depDeathSet)
    && (s.depDeathSet ==>
          s.forwarder.FwdCancelling? || ((s.forwarder.FwdSignalling? || s.forwarder.FwdFinished?) && s.ctxDone))
    && (s.forwarder.FwdCancelling? ==> s.depDeathSet)
    && (s.deathDone <==> s.forwarder.FwdFinished?)
    && ((s.root.RootReading? || s.root.RootOver?) ==> s.deathDone)
    && (!s.root.RootRunning? && !s.root.RootCancelling? ==> s.ctxDone)
    && (s.forwarder.FwdDraining? ==> s.ctxDone)
    && (s.seen.Some? ==> s.root.RootOver?)
    && (s.root.RootOver? ==> s.seen == if s.depDeathSet then s.depDeath else None)
    && (s.forwarder.FwdFinished? ==> s.poller.PollStopped? || s.sends == 1)
    && (s.forwarder.FwdSignalling? ==> s.poller.PollStopped? || s.sends == 1)
  }

  lemma InvStep(live: seq<LiveDep>, s: State, t: Step)
    requires Inv(live, s) && Enabled(live, s, t)
    ensures Inv(live, Next(s, t))
  {
    if t.PollDeath? {
      hide Diagnosed;
      assert Names(live, t.d);
    }
  }

  lemma {:induction false} InvHolds(live: seq<LiveDep>, ss: seq<State>, ts: seq<Step>, n: nat)
    requires IsRun(live, ss, ts) && n < |ss|
    ensures Inv(live, ss[n])
  {
    if n > 0 {
      InvHolds(live, ss, ts, n - 1);
      InvStep(live, ss[n - 1], ts[n - 1]);
      assert ss[n - 1 + 1] == Next(ss[n - 1], ts[n - 1]);
    }
  }

  /**
   * In every schedule: at most one death is sent and the send finds the buffer free; what the root reads is
   * settled, names a member of the live stack, and comes with a cancelled context.
   */
  lemma DeathIsSettledWhenRead(live: seq<LiveDep>, ss: seq<State>, ts: seq<Step>, n: nat)
    requires IsRun(live, ss, ts) && n < |ss|
    ensures var s := ss[n];
            && s.sends <= 1 && (s.poller.PollSending? ==> s.buffer.None?)
            && (s.root.RootReading? || s.root.RootOver? ==> s.forwarder.FwdFinished?)
            && (s.root.RootOver? ==> s.seen == if s.depDeathSet then s.depDeath else None)
            && (s.seen.Some? ==> s.root.RootOver? && Names(live, s.seen.value) && s.ctxDone)
  {
    InvHolds(live, ss, ts, n);
  }

  /** Once the forwarder has signalled, no step of any task touches the recorded death. */
  lemma RecordedDeathIsStable(live: seq<LiveDep>, s: State, t: Step)
    requires Inv(live, s) && s.deathDone && Enabled(live, s, t)
    ensures Next(s, t).deathDone && Next(s, t).depDeath == s.depDeath && Next(s, t).depDeathSet == s.depDeathSet
  {}

  /** The context of the whole run is not cancelled from outside. */
  ghost predicate Undisturbed(ts: seq<Step>) {
    forall i :: 0 <= i < |ts| ==> !ts[i].ParentCancel?
  }

  /** Only a recorded death cancels a root that is still running. */
  lemma {:induction false} CancelledByDeath(live: seq<LiveDep>, ss: seq<State>, ts: seq<Step>, n: nat)
    requires IsRun(live, ss, ts) && Undisturbed(ts) && n < |ss|
    ensures ss[n].ctxDone && (ss[n].root.RootRunning? || ss[n].root.RootCancelling?) ==> ss[n].depDeathSet
  {
    if n > 0 {
      CancelledByDeath(live, ss, ts, n - 1);
      InvHolds(live, ss, ts, n - 1);
      assert ss[n - 1 + 1] == Next(ss[n - 1], ts[n - 1]) && !ts[n - 1].ParentCancel?;
      assert Enabled(live, ss[n - 1], ts[n - 1]);
      hide *;
      CancelStep(live, ss[n - 1], ts[n - 1]);
    }
  }

  lemma CancelStep(live: seq<LiveDep>, s: State, t: Step)
    requires Inv(live, s) && Enabled(live, s, t) && !t.ParentCancel?
    requires s.ctxDone && (s.root.RootRunning? || s.root.RootCancelling?) ==> s.depDeathSet
    ensures var s' := Next(s, t);
            s'.ctxDone && (s'.root.RootRunning? || s'.root.RootCancelling?) ==> s'.depDeathSet
  {
    hide IsFirstDeath, Names;
  }

  /** A death once flagged stays flagged. */
  lemma {:induction false} FlagStays(live: seq<LiveDep>, ss: seq<State>, ts: seq<Step>, m: nat, n: nat)
    requires IsRun(live, ss, ts) && m <= n < |ss| && ss[m].depDeathSet
    ensures ss[n].depDeathSet
  {
    if m < n {
      FlagStays(live, ss, ts, m, n - 1);
      assert ss[n - 1 + 1] == Next(ss[n - 1], ts[n - 1]);
    }
  }

  /** A root that was cancelled while it was running always reads the death that cancelled it. */
  lemma CancelledRootReadsDeath(live: seq<LiveDep>, ss: seq<State>, ts: seq<Step>, m: nat)
    requires IsRun(live, ss, ts) && Undisturbed(ts) && m < |ss|
    requires ss[m].ctxDone && ss[m].root.RootRunning? && ss[|ts|].root.RootOver?
    ensures ss[|ts|].seen.Some? && Names(live, ss[|ts|].seen.value)
  {
    CancelledByDeath(live, ss, ts, m);
    FlagStays(live, ss, ts, m, |ts|);
    InvHolds(live, ss, ts, |ts|);
    hide Names;
  }

  /** A root that has stopped running returned at some step. */
  lemma {:induction false} RootReturned(live: seq<LiveDep>, ss: seq<State>, ts: seq<Step>, m: nat, n: nat)
    returns (b: nat)
    requires IsRun(live, ss, ts) && m <= n < |ss| && ss[m].root.RootRunning? && !ss[n].root.RootRunning?
    ensures m <= b < n && ts[b].RootReturn?
  {
    assert ss[n - 1 + 1] == Next(ss[n - 1], ts[n - 1]);
    if ss[n - 1].root.RootRunning? {
      b := n - 1;
    } else {
      b := RootReturned(live, ss, ts, m, n - 1);
    }
  }

  /** What cancels a running root in an undisturbed run is the forwarder. */
  lemma {:induction false} CancelledByForwarder(live: seq<LiveDep>, ss: seq<State>, ts: seq<Step>, n: nat)
    returns (a: nat)
    requires IsRun(live, ss, ts) && Undisturbed(ts) && n < |ss| && ss[n].ctxDone && ss[n].root.RootRunning?
    ensures a < n && ts[a].FwdCancel?
  {
    assert Enabled(live, ss[n - 1], ts[n - 1]) && ss[n - 1 + 1] == Next(ss[n - 1], ts[n - 1]);
    assert !ts[n - 1].ParentCancel?;
    hide IsFirstDeath;
    if ss[n - 1].ctxDone {
      a := CancelledByForwarder(live, ss, ts, n - 1);
    } else {
      a := n - 1;
    }
  }

  lemma {:induction false} DoneStays(live: seq<LiveDep>, ss: seq<State>, ts: seq<Step>, m: nat, n: nat)
    requires IsRun(live, ss, ts) && m <= n < |ss| && ss[m].ctxDone
    ensures ss[n].ctxDone
  {
    if m < n {
      DoneStays(live, ss, ts, m, n - 1);
      assert ss[n - 1 + 1] == Next(ss[n - 1], ts[n - 1]);
    }
  }

  /** The root was running while the context was cancelled. */
  ghost predicate CancelledWhileRunning(ss: seq<State>) {
    exists m :: 0 <= m < |ss| && ss[m].ctxDone && ss[m].root.RootRunning?
  }

  /** The forwarder cancelled the context before the root returned. */
  ghost predicate CancelsInTime(ts: seq<Step>) {
    exists a, b :: 0 <= a < b < |ts| && ts[a].FwdCancel? && ts[b].RootReturn?
  }

  /** In an undisturbed run that is over, the root was cancelled while it ran exactly if the forwarder came first. */
  lemma CancelledIffInTime(live: seq<LiveDep>, ss: seq<State>, ts: seq<Step>)
    requires IsRun(live, ss, ts) && Undisturbed(ts) && ss[|ts|].root.RootOver?
    ensures CancelledWhileRunning(ss) <==> CancelsInTime(ts)
  {
    hide Next, Enabled;
    if CancelledWhileRunning(ss) {
      var m :| 0 <= m < |ss| && ss[m].ctxDone && ss[m].root.RootRunning?;
      var a := CancelledByForwarder(live, ss, ts, m);
      var b := RootReturned(live, ss, ts, m, |ts|);
      assert ts[a].FwdCancel? && ts[b].RootReturn?;
    }
    if CancelsInTime(ts) {
      var a, b :| 0 <= a < b < |ts| && ts[a].FwdCancel? && ts[b].RootReturn?;
      CancelTakesEffect(live, ss, ts, a);
      DoneStays(live, ss, ts, a + 1, b);
      assert Enabled(live, ss[b], ts[b]);
      ReturnsFromRunning(live, ss[b], ts[b]);
    }
  }

  lemma CancelTakesEffect(live: seq<LiveDep>, ss: seq<State>, ts: seq<Step>, a: nat)
    requires IsRun(live, ss, ts) && a < |ts| && ts[a].FwdCancel?
    ensures ss[a + 1].ctxDone
  {
    assert ss[a + 1] == Next(ss[a], ts[a]);
  }

  lemma ReturnsFromRunning(live: seq<LiveDep>, s: State, t: Step)
    requires Enabled(live, s, t) && t.RootReturn?
    ensures s.root.RootRunning?
  {}

  const LONE: LiveDep := LiveDep("dep", "run")
  const GONE: DepDeath := DepDeath("dep", "registry_entry_missing")

  /** A run, nobody cancelled from outside, in which the root has not been cancelled while it was running. */
  ghost predicate Quietly(live: seq<LiveDep>, ss: seq<State>, ts: seq<Step>) {
    IsRun(live, ss, ts) && Undisturbed(ts) && !CancelledWhileRunning(ss)
  }

  lemma OneStepMore(live: seq<LiveDep>, ss: seq<State>, ts: seq<Step>, t: Step)
    returns (ss': seq<State>, ts': seq<Step>)
    requires |ss| == |ts| + 1 && Quietly(live, ss, ts) && Enabled(live, ss[|ts|], t) && !t.ParentCancel?
    requires !(Next(ss[|ts|], t).ctxDone && Next(ss[|ts|], t).root.RootRunning?)
    ensures Quietly(live, ss', ts') && |ts'| == |ts| + 1 && |ss'| == |ss| + 1 && ss'[|ts'|] == Next(ss[|ts|], t)
  {
    hide Enabled, Next;
    ss', ts' := ss + [Next(ss[|ts|], t)], ts + [t];
    forall i | 0 <= i < |ts'| ensures Enabled(live, ss'[i], ts'[i]) && ss'[i + 1] == Next(ss'[i], ts'[i]) {
      if i < |ts| { assert Enabled(live, ss[i], ts[i]) && ss[i + 1] == Next(ss[i], ts[i]); }
    }
  }

  lemma FirstStep() returns (ss: seq<State>, ts: seq<Step>)
    ensures var s := Initial([LONE]).(poller := PollSending(GONE));
            Quietly([LONE], ss, ts) && |ts| == 1 && |ss| == 2 && ss[1] == s
  {
    var t := PollDeath([LONE], [], _ => true, GONE);
    ss, ts := [Initial([LONE])], [];
    assert Diagnosed([], t.alive, [LONE][0].runID, Some(GONE.reason));
    assert IsFirstDeath([LONE], [], t.alive, Some(GONE)) by { assert [LONE][0].id == GONE.depID; }
    hide IsFirstDeath;
    ss, ts := OneStepMore([LONE], ss, ts, t);
  }

  /** A root that returns by itself just after a death was found still reads it, although nothing cancelled the root. */
  lemma UncancelledRootReadsDeath() returns (ss: seq<State>, ts: seq<Step>)
    ensures IsRun([LONE], ss, ts) && Undisturbed(ts) && ss[|ts|].root.RootOver? && ss[|ts|].seen == Some(GONE)
    ensures !CancelledWhileRunning(ss)
  {
    hide IsRun, Undisturbed, CancelledWhileRunning, IsFirstDeath;
    ss, ts := FirstStep();
    hide Quietly;
    ss, ts := OneStepMore([LONE], ss, ts, PollSend);
    ss, ts := OneStepMore([LONE], ss, ts, RootReturn);
    ss, ts := OneStepMore([LONE], ss, ts, FwdReceive);
    ss, ts := OneStepMore([LONE], ss, ts, FwdSet);
    ss, ts := OneStepMore([LONE], ss, ts, FwdFlag);
    ss, ts := OneStepMore([LONE], ss, ts, FwdCancel);
    ss, ts := OneStepMore([LONE], ss, ts, FwdSignal);
    ss, ts := OneStepMore([LONE], ss, ts, RootCancel);
    ss, ts := OneStepMore([LONE], ss, ts, RootJoin);
    ss, ts := OneStepMore([LONE], ss, ts, RootRead);
    QuietlyMeans([LONE], ss, ts);
  }

  lemma QuietlyMeans(live: seq<LiveDep>, ss: seq<State>, ts: seq<Step>)
    requires Quietly(live, ss, ts)
    ensures IsRun(live, ss, ts) && |ss| == |ts| + 1 && Undisturbed(ts) && !CancelledWhileRunning(ss)
  {}

  /**
   * A run whose death is the one its root has read: a closing line that says which dependency cancelled the root
   * names a dependency of the live stack, unless the root wrote that itself.
   */
  lemma ClosingNamesLiveDep(live: seq<LiveDep>, ss: seq<State>, ts: seq<Step>, e: RootWorld, target: Id,
                            pre: DepsResult)
    requires IsRun(live, ss, ts) && ss[|ts|].root.RootOver? && e.death == ss[|ts|].seen && pre.liveStack == live
    ensures var c := Closing(e, target, pre);
            c.Some? && c.value.cancelledBy.Some? ==> c == e.rootSig || Names(pre.liveStack, c.value.cancelledBy.value)
    ensures pre.exitCode == 0 && pre.cascade.None? && e.rootSig.Some? && ss[|ts|].seen.Some? ==>
              Closing(e, target, pre).Some? && Closing(e, target, pre).value.cancelledBy == ss[|ts|].seen
  {
    InvHolds(live, ss, ts, |ts|);
    hide Names;
  }

  // ---- Termination ---------------------------------------------------------------------------

  ghost predicate AllOver(s: State) {
    s.root.RootOver? && s.forwarder.FwdFinished? && s.poller.PollStopped?
  }

  /** Steps left, whatever the scheduler does; a quiet poll does not count. */
  function Remaining(s: State): nat {
    PollerLeft(s.poller) + ForwarderLeft(s.forwarder) + RootLeft(s.root) + if s.ctxDone then 0 else 1
  }

  function PollerLeft(p: PollerAt): nat {
    match p case PollWaiting => 3 case PollSending(_) => 2 case PollClosing => 1 case PollStopped => 0
  }

  function ForwarderLeft(f: ForwarderAt): nat {
    match f
    case FwdSelecting => 6
    case FwdSetting(_) => 5
    case FwdFlagging => 4
    case FwdCancelling => 3
    case FwdDraining => 2
    case FwdSignalling => 1
    case FwdFinished => 0
  }

  function RootLeft(r: RootAt): nat {
    match r
    case RootRunning => 4
    case RootCancelling => 3
    case RootJoining => 2
    case RootReading => 1
    case RootOver => 0
  }

  lemma ProgressShrinks(live: seq<LiveDep>, s: State, t: Step)
    requires Enabled(live, s, t) && !t.PollQuiet?
    ensures Remaining(Next(s, t)) < Remaining(s)
  {
    hide IsFirstDeath;
  }

  /** No deadlock: until everything has settled some step other than a quiet poll is enabled. */
  lemma SomeTaskCanMove(live: seq<LiveDep>, ss: seq<State>, ts: seq<Step>) returns (t: Step)
    requires IsRun(live, ss, ts) && !AllOver(ss[|ts|])
    ensures Enabled(live, ss[|ts|], t) && !t.PollQuiet? && !t.ParentCancel?
  {
    var s := ss[|ts|];
    InvHolds(live, ss, ts, |ts|);
    if s.root.RootRunning? { return RootReturn; }
    if s.root.RootCancelling? { return RootCancel; }
    if s.root.RootReading? { return RootRead; }
    if s.poller.PollWaiting? { return PollCtx; }
    if s.poller.PollSending? { return PollSend; }
    if s.poller.PollClosing? { return PollClose; }
    t := match s.forwarder
      case FwdSelecting => FwdCtx
      case FwdSetting(_) => FwdSet
      case FwdFlagging => FwdFlag
      case FwdCancelling => FwdCancel
      case FwdDraining => FwdDrain
      case FwdSignalling => FwdSignal
      case FwdFinished => RootJoin;
  }

  function Loud(ts: seq<Step>): nat {
    if ts == [] then 0 else Loud(ts[..|ts| - 1]) + if ts[|ts| - 1].PollQuiet? then 0 else 1
  }

  /** Every schedule makes at most fourteen steps that are not quiet polls. */
  lemma {:induction false} ScheduleIsBounded(live: seq<LiveDep>, ss: seq<State>, ts: seq<Step>)
    requires IsRun(live, ss, ts)
    ensures Loud(ts) + Remaining(ss[|ts|]) <= 14
  {
    if ts != [] {
      var n := |ts| - 1;
      ScheduleIsBounded(live, ss[..|ts|], ts[..n]);
      assert ss[n + 1] == Next(ss[n], ts[n]);
      if !ts[n].PollQuiet? { ProgressShrinks(live, ss[n], ts[n]); }
    }
  }
}
