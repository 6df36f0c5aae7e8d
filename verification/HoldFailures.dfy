/** Where the hold protocol falls short: concrete runs, and the condition on holder ids under which none exists. */
module HoldFailures {
  import opened Options
  import opened Holders
  import opened Registry
  import opened LiveDeps
  import opened HoldProtocol

  /** One dependency process, run "r", with the given holders. */
  function Dep(hs: seq<Holder>): Entry {
    Entry("dep", "r", true, 1, 1, 0, hs)
  }

  const Empty: State := State([], map[], {}, {}, {})

  function AttachStep(k: nat, pid: int, runID: string): Step {
    Attach(k, "dep", pid, _ => true, Spawn(runID, 1, 1, 0))
  }

  /** The first client of run "r" alone: in its health gate, then past it. */
  function Alone(ids: seq<string>, a: nat, inGate: bool): State
    requires a < |ids|
  {
    var gating := if inGate then {(a, "dep")} else {};
    State([Dep([SensorHolder(ids[a], 1)])], map[(a, "dep") := Hold("r", 1, 1)], gating, {}, {})
  }

  lemma FirstAttach(ids: seq<string>, a: nat)
    requires a < |ids|
    ensures Enabled(ids, Empty, AttachStep(a, 1, "r")) && Next(ids, Empty, AttachStep(a, 1, "r")) == Alone(ids, a, true)
    ensures Enabled(ids, Alone(ids, a, true), GatePassed(a, "dep"))
    ensures Next(ids, Alone(ids, a, true), GatePassed(a, "dep")) == Alone(ids, a, false)
  {
    assert Empty.entries + [Dep([SensorHolder(ids[a], 1)])] == [Dep([SensorHolder(ids[a], 1)])];
    assert {(a, "dep")} - {(a, "dep")} == {};
  }

  lemma {:induction false} SelectAll(hs: seq<Holder>, p: Holder -> bool)
    requires forall i :: 0 <= i < |hs| ==> p(hs[i])
    ensures Select(hs, p) == hs
  {
    if hs != [] {
      SelectAll(hs[..|hs| - 1], p);
    }
  }

  /** Among records of other ids a client's new record comes last. */
  lemma JoinedLast(hs: seq<Holder>, alive: int -> bool, h: Holder)
    requires forall i :: 0 <= i < |hs| ==> hs[i].id != h.id
    ensures Rejoin(hs, alive, h) == hs + [h]
  {
    SelectAll(hs, NotSameIDDead(alive, h.id));
  }

  /** Both attached under one record, as happens when they share an id. */
  function Sharing(ids: seq<string>, a: nat, b: nat): State
    requires a < |ids|
  {
    var holds := map[(a, "dep") := Hold("r", 1, 1), (b, "dep") := Hold("r", 2, 2)];
    State([Dep([SensorHolder(ids[a], 1)])], holds, {}, {}, {})
  }

  /** The stop is decided, with the given holders of run "r" and the given clients still attached. */
  function Stopping(hs: seq<Holder>, holds: map<(nat, string), Hold>): State {
    State([Dep(hs)], holds, {}, {"r"}, {})
  }

  lemma SharedAttach(ids: seq<string>, a: nat, b: nat)
    requires a < b < |ids| && ids[a] == ids[b]
    ensures Enabled(ids, Alone(ids, a, false), AttachStep(b, 2, "q"))
    ensures Next(ids, Alone(ids, a, false), AttachStep(b, 2, "q")) == Sharing(ids, a, b)
  {
    var s, t := Alone(ids, a, false), AttachStep(b, 2, "q");
    var hs := s.entries[0].heldBy;
    assert FirstIndex(s.entries, BlockingFor("dep")) == Some(0);
    SelectAll(hs, NotSameIDDead(t.alive, ids[b]));
    assert SameIDLive(t.alive, ids[b], hs[0]);
    assert s.entries[0 := Dep(hs)] == [Dep(hs)];
  }

  lemma LastDetach(ids: seq<string>, s: State, a: nat)
    requires a < |ids| && (a, "dep") in s.holds && s.holds[(a, "dep")] == Hold("r", 1, 1) && s.gating == {} &&
             s.stopping == {} && s.dead == {}
    requires s.entries == [Dep([SensorHolder(ids[a], 1)])]
    ensures Enabled(ids, s, Detach(a, "dep"))
    ensures Next(ids, s, Detach(a, "dep")) == Stopping([], s.holds - {(a, "dep")})
  {
    assert FirstIndex(s.entries, WithRun("r")) == Some(0);
    assert RemoveMatch(s.entries[0].heldBy, SensorHolder(ids[a], 1)) == [];
    assert s.entries[0 := Dep([])] == [Dep([])];
    assert s.stopping + {"r"} == {"r"};
  }

  lemma DetachFromShared(ids: seq<string>, a: nat, b: nat)
    requires a < b < |ids|
    ensures Enabled(ids, Sharing(ids, a, b), Detach(a, "dep"))
    ensures Next(ids, Sharing(ids, a, b), Detach(a, "dep")) == Stopping([], map[(b, "dep") := Hold("r", 2, 2)])
  {
    LastDetach(ids, Sharing(ids, a, b), a);
    assert Sharing(ids, a, b).holds - {(a, "dep")} == map[(b, "dep") := Hold("r", 2, 2)];
  }

  lemma DetachAlone(ids: seq<string>, a: nat)
    requires a < |ids|
    ensures Enabled(ids, Alone(ids, a, false), Detach(a, "dep"))
    ensures Next(ids, Alone(ids, a, false), Detach(a, "dep")) == Stopping([], map[])
  {
    LastDetach(ids, Alone(ids, a, false), a);
    assert Alone(ids, a, false).holds - {(a, "dep")} == map[];
  }

  lemma AttachWhileStopping(ids: seq<string>, b: nat)
    requires b < |ids|
    ensures Enabled(ids, Stopping([], map[]), AttachStep(b, 2, "q"))
    ensures Next(ids, Stopping([], map[]), AttachStep(b, 2, "q")) ==
            Stopping([SensorHolder(ids[b], 2)], map[(b, "dep") := Hold("r", 2, 2)])
  {
    var s := Stopping([], map[]);
    assert FirstIndex(s.entries, BlockingFor("dep")) == Some(0);
    assert [] + [SensorHolder(ids[b], 2)] == [SensorHolder(ids[b], 2)];
    assert s.entries[0 := Dep([SensorHolder(ids[b], 2)])] == [Dep([SensorHolder(ids[b], 2)])];
  }

  lemma FinalStop(ids: seq<string>, hs: seq<Holder>, b: nat)
    ensures var s := Stopping(hs, map[(b, "dep") := Hold("r", 2, 2)]);
            Enabled(ids, s, Stop("r")) && !NoOrphan(ids, Next(ids, s, Stop("r")))
    ensures hs == [] ==> Quiet(ids, Stopping(hs, map[(b, "dep") := Hold("r", 2, 2)]), Stop("r"))
  {
    var s := Stopping(hs, map[(b, "dep") := Hold("r", 2, 2)]);
    assert s.entries[..0] == [];
    assert RemoveRun(s.entries, "r") == [];
    assert (b, "dep") in Next(ids, s, Stop("r")).holds;
  }

  /**
   * Two clients under one holder id: the second gets no record of its own, the first's detach stops the dependency
   * under it, and no removal along the way disturbs a record.
   */
  lemma SharedIdOrphans(ids: seq<string>, a: nat, b: nat) returns (ss: seq<State>, ts: seq<Step>)
    requires a < b < |ids| && ids[a] == ids[b]
    ensures |ts| == 5 && IsRun(ids, ss, ts) && QuietUpTo(ids, ss, ts, 5) && !NoOrphan(ids, ss[5])
  {
    hide *;
    var stopping := Stopping([], map[(b, "dep") := Hold("r", 2, 2)]);
    ss := [Empty, Alone(ids, a, true), Alone(ids, a, false), Sharing(ids, a, b), stopping,
      Next(ids, stopping, Stop("r"))];
    ts := [AttachStep(a, 1, "r"), GatePassed(a, "dep"), AttachStep(b, 2, "q"), Detach(a, "dep"), Stop("r")];
    FirstAttach(ids, a);
    SharedAttach(ids, a, b);
    DetachFromShared(ids, a, b);
    FinalStop(ids, [], b);
    FiveSteps(ids, ss, ts);
    SharedDetachIsQuiet(ids, a, b);
    NobodyDied(ids, a);
    OnlyStopIsLoud(ids, ss, ts, a, b);
  }

  lemma NobodyDied(ids: seq<string>, a: nat)
    requires a < |ids|
    ensures Empty.dead == {} && Alone(ids, a, false).dead == {}
  {}

  lemma SharedDetachIsQuiet(ids: seq<string>, a: nat, b: nat)
    requires a < b < |ids|
    ensures Quiet(ids, Sharing(ids, a, b), Detach(a, "dep"))
  {}

  lemma OnlyStopIsLoud(ids: seq<string>, ss: seq<State>, ts: seq<Step>, a: nat, b: nat)
    requires |ss| == 6 && Quiet(ids, ss[4], Stop("r")) && Quiet(ids, ss[3], Detach(a, "dep"))
    requires ss[0].dead == {} && ss[2].dead == {}
    requires ts == [AttachStep(a, 1, "r"), GatePassed(a, "dep"), AttachStep(b, 2, "q"), Detach(a, "dep"), Stop("r")]
    ensures QuietUpTo(ids, ss, ts, 5)
  {}

  /**
   * Distinct ids do not help when an attach falls between a detach that decides to stop and the stop's own section:
   * it joins the entry, and the stop removes it.
   */
  lemma StopRaceOrphans(ids: seq<string>, a: nat, b: nat) returns (ss: seq<State>, ts: seq<Step>)
    requires a < |ids| && b < |ids| && ids[a] != ids[b]
    ensures |ts| == 5 && IsRun(ids, ss, ts) && !Quiet(ids, ss[4], ts[4]) && !NoOrphan(ids, ss[5])
  {
    hide *;
    var joined := Stopping([SensorHolder(ids[b], 2)], map[(b, "dep") := Hold("r", 2, 2)]);
    ss := [Empty, Alone(ids, a, true), Alone(ids, a, false), Stopping([], map[]), joined, Next(ids, joined, Stop("r"))];
    ts := [AttachStep(a, 1, "r"), GatePassed(a, "dep"), Detach(a, "dep"), AttachStep(b, 2, "q"), Stop("r")];
    FirstAttach(ids, a);
    DetachAlone(ids, a);
    AttachWhileStopping(ids, b);
    FinalStop(ids, [SensorHolder(ids[b], 2)], b);
    LoudStop(ids, b);
    FiveSteps(ids, ss, ts);
  }

  lemma LoudStop(ids: seq<string>, b: nat)
    requires b < |ids|
    ensures !Quiet(ids, Stopping([SensorHolder(ids[b], 2)], map[(b, "dep") := Hold("r", 2, 2)]), Stop("r"))
  {
    var s := Stopping([SensorHolder(ids[b], 2)], map[(b, "dep") := Hold("r", 2, 2)]);
    assert s.entries[0].runID == "r" && RecordPids(s.entries[0].heldBy, ids[b], {})[0] == 2;
  }

  lemma FiveSteps(ids: seq<string>, ss: seq<State>, ts: seq<Step>)
    requires |ts| == 5 && |ss| == 6 && ss[0] == Empty
    requires Enabled(ids, ss[0], ts[0]) && ss[1] == Next(ids, ss[0], ts[0])
    requires Enabled(ids, ss[1], ts[1]) && ss[2] == Next(ids, ss[1], ts[1])
    requires Enabled(ids, ss[2], ts[2]) && ss[3] == Next(ids, ss[2], ts[2])
    requires Enabled(ids, ss[3], ts[3]) && ss[4] == Next(ids, ss[3], ts[3])
    requires Enabled(ids, ss[4], ts[4]) && ss[5] == Next(ids, ss[4], ts[4])
    ensures IsRun(ids, ss, ts)
  {
    hide Enabled, Next;
    forall n | 0 <= n < |ts| ensures Enabled(ids, ss[n], ts[n]) && ss[n + 1] == Next(ids, ss[n], ts[n]) {
      assert n == 0 || n == 1 || n == 2 || n == 3 || n == 4;
    }
  }

  /** The first client after its record was moved to the pid of another process. */
  function Rebound(ids: seq<string>, a: nat): State
    requires a < |ids|
  {
    State([Dep([SensorHolder(ids[a], 5)])], map[(a, "dep") := Hold("r", 5, 1)], {}, {}, {})
  }

  lemma RebindAlone(ids: seq<string>, a: nat)
    requires a < |ids|
    ensures Enabled(ids, Alone(ids, a, false), Rebind(a, "dep", 5))
    ensures Next(ids, Alone(ids, a, false), Rebind(a, "dep", 5)) == Rebound(ids, a)
  {
    var hs := Alone(ids, a, false).entries[0].heldBy;
    assert FirstIndex(Alone(ids, a, false).entries, BlockingFor("dep")) == Some(0);
    assert Repid(hs, SensorHolder(ids[a], 1), 5) == [SensorHolder(ids[a], 5)];
    assert [Dep(hs)][0 := Dep([SensorHolder(ids[a], 5)])] == [Dep([SensorHolder(ids[a], 5)])];
  }

  lemma DetachRebound(ids: seq<string>, a: nat)
    requires a < |ids|
    ensures Enabled(ids, Rebound(ids, a), Detach(a, "dep")) && !Quiet(ids, Rebound(ids, a), Detach(a, "dep"))
    ensures Next(ids, Rebound(ids, a), Detach(a, "dep")) == State(Rebound(ids, a).entries, map[], {}, {}, {})
  {
    var s := Rebound(ids, a);
    var hs := s.entries[0].heldBy;
    assert FirstIndex(s.entries, WithRun("r")) == Some(0);
    assert hs[1..] == [] && RemoveMatch(hs[1..], SensorHolder(ids[a], 1)) == [];
    assert RemoveMatch(hs, SensorHolder(ids[a], 1)) == hs;
    assert s.entries[0 := Dep(hs)] == s.entries;
    assert s.holds - {(a, "dep")} == map[];
  }

  /**
   * A process that detaches after its own rebind looks for the record under its own pid, which is no longer there:
   * the record stays, and the dependency that nobody holds any more is not stopped.
   */
  lemma StaleAfterRebind(ids: seq<string>, a: nat) returns (ss: seq<State>, ts: seq<Step>)
    requires a < |ids|
    ensures |ts| == 4 && IsRun(ids, ss, ts) && !Quiet(ids, ss[3], ts[3])
    ensures ss[4].holds == map[] && ss[4].stopping == {} && ss[4].entries == [Dep([SensorHolder(ids[a], 5)])]
  {
    var last := State(Rebound(ids, a).entries, map[], {}, {}, {});
    ss := [Empty, Alone(ids, a, true), Alone(ids, a, false), Rebound(ids, a), last];
    ts := [AttachStep(a, 1, "r"), GatePassed(a, "dep"), Rebind(a, "dep", 5), Detach(a, "dep")];
    FirstAttach(ids, a);
    RebindAlone(ids, a);
    DetachRebound(ids, a);
    hide Enabled, Next, Alone, Quiet, Rebound;
    forall n | 0 <= n < |ts| ensures Enabled(ids, ss[n], ts[n]) && ss[n + 1] == Next(ids, ss[n], ts[n]) {
      assert n == 0 || n == 1 || n == 2 || n == 3;
    }
  }

  /** Both attached, the first still in the health gate of the process it spawned. */
  function InGate(ids: seq<string>, a: nat, b: nat): State
    requires a < |ids| && b < |ids|
  {
    State([Dep([SensorHolder(ids[a], 1), SensorHolder(ids[b], 2)])],
          map[(a, "dep") := Hold("r", 1, 1), (b, "dep") := Hold("r", 2, 2)], {(a, "dep")}, {}, {})
  }

  lemma JoinInGate(ids: seq<string>, a: nat, b: nat)
    requires a < |ids| && b < |ids| && ids[a] != ids[b]
    ensures Enabled(ids, Alone(ids, a, true), AttachStep(b, 2, "q"))
    ensures Next(ids, Alone(ids, a, true), AttachStep(b, 2, "q")) == InGate(ids, a, b)
  {
    var s, t := Alone(ids, a, true), AttachStep(b, 2, "q");
    var hs, h := s.entries[0].heldBy, SensorHolder(ids[b], 2);
    assert FirstIndex(s.entries, BlockingFor("dep")) == Some(0);
    assert hs[1..] == [] && RecordPids(hs[1..], ids[b], {}) == [];
    JoinedLast(hs, t.alive, h);
    assert hs + [h] == [SensorHolder(ids[a], 1), h];
    assert s.entries[0 := Dep(hs + [h])] == [Dep(hs + [h])];
  }

  lemma GateFails(ids: seq<string>, a: nat, b: nat)
    requires a < |ids| && b < |ids| && ids[a] != ids[b]
    ensures var s, t := InGate(ids, a, b), GateFailed(a, "dep");
            Enabled(ids, s, t) && !Quiet(ids, s, t) && !NoOrphan(ids, Next(ids, s, t))
  {
    var s, t := InGate(ids, a, b), GateFailed(a, "dep");
    var hs := s.entries[0].heldBy;
    assert a != b && (b, "dep") in Next(ids, s, t).holds;
    assert s.entries[..0] == [] && RemoveRun(s.entries, "r") == [];
    assert hs[1..] == [SensorHolder(ids[b], 2)] && RecordPids(hs[1..], ids[b], {})[0] == 2;
    assert RecordPids(hs, ids[b], {}) == [] + RecordPids(hs[1..], ids[b], {});
    assert s.entries[0].runID == "r" && RecordPids(s.entries[0].heldBy, ids[b], {}) != [];
  }

  /** A client that joins a process in its health gate is left without an entry when the gate fails. */
  lemma GateRaceOrphans(ids: seq<string>, a: nat, b: nat) returns (ss: seq<State>, ts: seq<Step>)
    requires a < |ids| && b < |ids| && ids[a] != ids[b]
    ensures |ts| == 3 && IsRun(ids, ss, ts) && ts[2].GateFailed? && !Quiet(ids, ss[2], ts[2]) && !NoOrphan(ids, ss[3])
  {
    ss := [Empty, Alone(ids, a, true), InGate(ids, a, b), Next(ids, InGate(ids, a, b), GateFailed(a, "dep"))];
    ts := [AttachStep(a, 1, "r"), AttachStep(b, 2, "q"), GateFailed(a, "dep")];
    FirstAttach(ids, a);
    JoinInGate(ids, a, b);
    GateFails(ids, a, b);
    hide *;
    forall n | 0 <= n < |ts| ensures Enabled(ids, ss[n], ts[n]) && ss[n + 1] == Next(ids, ss[n], ts[n]) {
      assert n == 0 || n == 1 || n == 2;
    }
    StartsEmpty(ids, ss, ts);
  }

  lemma StartsEmpty(ids: seq<string>, ss: seq<State>, ts: seq<Step>)
    requires |ss| == |ts| + 1 && ss[0] == Empty
    requires forall n :: 0 <= n < |ts| ==> Enabled(ids, ss[n], ts[n]) && ss[n + 1] == Next(ids, ss[n], ts[n])
    ensures IsRun(ids, ss, ts)
  {
    hide Enabled, Next;
  }

  /** The second attach spawns behind the entry of a process that has died. */
  lemma TwoBlockingEntries(ids: seq<string>, a: nat, b: nat) returns (ss: seq<State>, ts: seq<Step>)
    requires a < |ids| && b < |ids| && a != b
    ensures |ts| == 2 && IsRun(ids, ss, ts) && OneBlocking(ss[0].entries) && SpawnsBehind(ss[1], ts[1]) &&
            !OneBlocking(ss[2].entries)
  {
    var again := Attach(b, "dep", 2, pid => pid == 2, Spawn("q", 3, 3, 0));
    ss := [Empty, Alone(ids, a, true), Next(ids, Alone(ids, a, true), again)];
    ts := [AttachStep(a, 1, "r"), again];
    FirstAttach(ids, a);
    SpawnAgain(ids, a, b);
    hide Enabled, Next, Alone, SpawnsBehind;
    forall n | 0 <= n < |ts| ensures Enabled(ids, ss[n], ts[n]) && ss[n + 1] == Next(ids, ss[n], ts[n]) {
      assert n == 0 || n == 1;
    }
  }

  lemma SpawnAgain(ids: seq<string>, a: nat, b: nat)
    requires a < |ids| && b < |ids| && a != b
    ensures var s, t := Alone(ids, a, true), Attach(b, "dep", 2, pid => pid == 2, Spawn("q", 3, 3, 0));
            Enabled(ids, s, t) && SpawnsBehind(s, t) && !OneBlocking(Next(ids, s, t).entries)
  {
    var s, t := Alone(ids, a, true), Attach(b, "dep", 2, pid => pid == 2, Spawn("q", 3, 3, 0));
    assert FirstIndex(s.entries, BlockingFor("dep")) == Some(0);
    var es := Next(ids, s, t).entries;
    assert es[0].blocking && es[1].blocking && es[0].sensorID == es[1].sensorID;
  }

  // ---- Distinct ids --------------------------------------------------------------------------------

  /** Distinct holder ids are exactly what quiet runs need. */
  lemma DistinctIffHeld(ids: seq<string>)
    ensures Distinct(ids) <==>
            forall ss: seq<State>, ts: seq<Step> :: IsRun(ids, ss, ts) && QuietUpTo(ids, ss, ts, |ts|) ==>
              forall n :: 0 <= n < |ss| ==> Held(ids, ss[n])
  {
    if Distinct(ids) {
      forall ss: seq<State>, ts: seq<Step> | IsRun(ids, ss, ts) && QuietUpTo(ids, ss, ts, |ts|)
        ensures forall n :: 0 <= n < |ss| ==> Held(ids, ss[n])
      {
        HeldThroughoutIffQuiet(ids, ss, ts);
      }
    } else {
      var a, b :| 0 <= a < b < |ids| && ids[a] == ids[b];
      var ss, ts := SharedIdOrphans(ids, a, b);
      assert !Held(ids, ss[5]);
    }
  }
}
