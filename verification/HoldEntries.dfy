/**
 * What the lock sections leave as it is: the fields of every entry but its hold records, and with them the process
 * that later clients join.
 */
module HoldEntries {
  import opened Options
  import opened Picks
  import opened Holders
  import opened Registry
  import opened LiveDeps
  import opened HoldProtocol

  /** The run whose entry a step removes. */
  function RemovedRun(s: State, t: Step): Option<string> {
    match t
    case Stop(runID) => Some(runID)
    case GateFailed(k, dep) => if (k, dep) in s.holds then Some(s.holds[(k, dep)].runID) else None
    case _ => None
  }

  /** The entries of `es` without those of one run, in order. */
  ghost predicate IsWithout(es: seq<Entry>, runID: string, es': seq<Entry>) {
    exists idx: seq<nat> :: PicksOut(idx, es, OtherRun(runID)) && |es'| == |idx| && ListsThen(es, idx, es')
  }

  /** The old entries with at most their records changed, and possibly one entry more. */
  ghost predicate IsGrown(ids: seq<string>, es: seq<Entry>, t: Step, es': seq<Entry>) {
    && |es| <= |es'| && OnlyHolders(es, es'[..|es|])
    && (|es'| > |es| ==>
          && t.Attach? && t.k < |ids| && !CanJoin(es, t.dep, t.alive)
          && es'[|es|..] == [Entry(t.dep, t.sp.runID, true, t.sp.pid, t.sp.pgid, t.sp.watcherPID,
                                   [SensorHolder(ids[t.k], t.pid)])])
  }

  /**
   * A removal drops exactly the entries of its run. Every other step keeps all entries and all their fields but the
   * hold records, and adds nothing unless it is an attach that finds no living process.
   */
  lemma StepKeepsEntries(ids: seq<string>, s: State, t: Step)
    requires Savable(s) && Enabled(ids, s, t)
    ensures match RemovedRun(s, t)
            case Some(runID) => IsWithout(s.entries, runID, Next(ids, s, t).entries)
            case None => IsGrown(ids, s.entries, t, Next(ids, s, t).entries)
  {
    SectionsAreSaved(ids, s, t);
    var es, es' := s.entries, Next(ids, s, t).entries;
    assert |es'| == |es| ==> es'[..|es|] == es';
    match t
    case Stop(runID) => var idx := RemovalChanges(es, runID);
    case GateFailed(k, dep) => var idx := RemovalChanges(es, s.holds[(k, dep)].runID);
    case Attach(k, dep, pid, alive, sp) =>
      AttachChanges(es, dep, SensorHolder(ids[k], pid), alive, sp);
      var spawned := Entry(dep, sp.runID, true, sp.pid, sp.pgid, sp.watcherPID, [SensorHolder(ids[k], pid)]);
      assert (es + [spawned])[..|es|] == es;
    case Detach(k, dep) => DetachChanges(es, s.holds[(k, dep)].runID, SensorHolder(ids[k], s.holds[(k, dep)].own));
    case Rebind(k, dep, newPid) => RebindChanges(es, dep, SensorHolder(ids[k], s.holds[(k, dep)].own), newPid);
    case _ =>
  }

  /** The first blocking entry of `dep` is of that run and that process. */
  ghost predicate Joinable(es: seq<Entry>, dep: string, runID: string, pid: int) {
    exists k :: IsFirstBlocking(es, dep, k) && es[k].runID == runID && es[k].pid == pid
  }

  lemma GrownIsJoinable(ids: seq<string>, es: seq<Entry>, t: Step, es': seq<Entry>, dep: string, runID: string,
                        pid: int)
    requires IsGrown(ids, es, t, es') && Joinable(es, dep, runID, pid)
    ensures Joinable(es', dep, runID, pid)
  {
    var k :| IsFirstBlocking(es, dep, k) && es[k].runID == runID && es[k].pid == pid;
    assert forall i :: 0 <= i < |es| ==> es'[i] == es'[..|es|][i];
    assert IsFirstBlocking(es', dep, k);
  }

  lemma WithoutIsJoinable(es: seq<Entry>, removed: string, es': seq<Entry>, dep: string, runID: string, pid: int)
    requires IsWithout(es, removed, es') && Joinable(es, dep, runID, pid) && removed != runID
    ensures Joinable(es', dep, runID, pid)
  {
    var k :| IsFirstBlocking(es, dep, k) && es[k].runID == runID && es[k].pid == pid;
    hide PicksOut, IsFirstBlocking;
    var idx: seq<nat> :| PicksOut(idx, es, OtherRun(removed)) && |es'| == |idx| && ListsThen(es, idx, es');
    var j := ListedAt(idx, es, OtherRun(removed), k);
    StaysFirst(es, idx, es', dep, k, j);
  }

  lemma StaysFirst(es: seq<Entry>, idx: seq<nat>, es': seq<Entry>, dep: string, k: int, j: nat)
    requires |es'| == |idx| && ListsThen(es, idx, es') && IsFirstBlocking(es, dep, k)
    requires j < |idx| && idx[j] == k && forall a :: 0 <= a < j ==> idx[a] < k
    ensures IsFirstBlocking(es', dep, j) && es'[j] == es[k]
  {}

  /** As long as the run of a joinable entry is not removed, the entry stays joinable. */
  lemma {:induction false} StaysJoinable(ids: seq<string>, ss: seq<State>, ts: seq<Step>, m: nat, n: nat, dep: string,
                                         runID: string, pid: int)
    requires IsRun(ids, ss, ts) && m <= n < |ss| && Joinable(ss[m].entries, dep, runID, pid)
    requires forall x :: m <= x < n ==> RemovedRun(ss[x], ts[x]) != Some(runID)
    ensures Joinable(ss[n].entries, dep, runID, pid)
    decreases n - m
  {
    if m < n {
      var s, t := ss[n - 1], ts[n - 1];
      StaysJoinable(ids, ss, ts, m, n - 1, dep, runID, pid);
      SavableThroughout(ids, ss, ts, n - 1);
      StepKeepsEntries(ids, s, t);
      assert ss[n - 1 + 1] == Next(ids, s, t);
      hide *;
      match RemovedRun(s, t)
      case Some(removed) => WithoutIsJoinable(s.entries, removed, ss[n].entries, dep, runID, pid);
      case None => GrownIsJoinable(ids, s.entries, t, ss[n].entries, dep, runID, pid);
    }
  }

  lemma AttachIsJoinable(ids: seq<string>, s: State, t: Step)
    requires Savable(s) && Enabled(ids, s, t) && t.Attach? && !SpawnsBehind(s, t)
    ensures var runID := AttachedRun(s.entries, t.dep, t.alive, t.sp);
            exists pid :: Joinable(Next(ids, s, t).entries, t.dep, runID, pid)
  {
    var es, h, sp := s.entries, SensorHolder(ids[t.k], t.pid), t.sp;
    assert Next(ids, s, t).entries == AttachTo(es, t.dep, h, t.alive, sp);
    StepKeepsEntries(ids, s, t);
    JoinsOrAppends(es, t.dep, h, t.alive, sp);
    NothingBehind(s, t);
    hide *;
    if CanJoin(es, t.dep, t.alive) {
      var pid :| Joinable(es, t.dep, AttachedRun(es, t.dep, t.alive, sp), pid);
      GrownIsJoinable(ids, es, t, Next(ids, s, t).entries, t.dep, AttachedRun(es, t.dep, t.alive, sp), pid);
    } else {
      AppendedIsJoinable(es, Entry(t.dep, sp.runID, true, sp.pid, sp.pgid, sp.watcherPID, [h]));
    }
  }

  lemma JoinsOrAppends(es: seq<Entry>, dep: string, h: Holder, alive: int -> bool, sp: Spawn)
    ensures if CanJoin(es, dep, alive) then exists pid :: Joinable(es, dep, AttachedRun(es, dep, alive, sp), pid)
            else AttachedRun(es, dep, alive, sp) == sp.runID && AttachTo(es, dep, h, alive, sp) ==
                   es + [Entry(dep, sp.runID, true, sp.pid, sp.pgid, sp.watcherPID, [h])]
  {
    AttachChanges(es, dep, h, alive, sp);
    hide AttachTo, AttachedRun, JoinedAt, CanJoin, OnlyHolders;
    if CanJoin(es, dep, alive) {
      var k :| IsFirstBlocking(es, dep, k) && es[k].runID == AttachedRun(es, dep, alive, sp);
      assert Joinable(es, dep, es[k].runID, es[k].pid);
    }
  }

  lemma NothingBehind(s: State, t: Step)
    requires t.Attach? && !SpawnsBehind(s, t)
    ensures CanJoin(s.entries, t.dep, t.alive) || NoneBlocking(s.entries, t.dep)
  {
    var k := FirstIndex(s.entries, BlockingFor(t.dep));
    if k.Some? {
      assert IsFirstBlocking(s.entries, t.dep, k.value);
    } else {
      assert forall i :: 0 <= i < |s.entries| ==> !BlockingFor(t.dep)(s.entries[i]);
    }
  }

  ghost predicate NoneBlocking(es: seq<Entry>, dep: string) {
    forall i :: 0 <= i < |es| ==> !(es[i].sensorID == dep && es[i].blocking)
  }

  lemma AppendedIsJoinable(es: seq<Entry>, e: Entry)
    requires NoneBlocking(es, e.sensorID) && e.blocking
    ensures Joinable(es + [e], e.sensorID, e.runID, e.pid)
  {
    assert IsFirstBlocking(es + [e], e.sensorID, |es|);
  }

  /**
   * Clients share one process: after an attach that does not spawn behind a dead entry, and as long as the run it got
   * is not removed, whatever else happens, every later attach to the dependency joins that run while its process lives.
   */
  lemma LaterAttachJoins(ids: seq<string>, ss: seq<State>, ts: seq<Step>, m: nat, n: nat) returns (pid: int)
    requires IsRun(ids, ss, ts) && m < n < |ts| && ts[m].Attach? && ts[n].Attach? && ts[m].dep == ts[n].dep
    requires !SpawnsBehind(ss[m], ts[m])
    requires var runID := AttachedRun(ss[m].entries, ts[m].dep, ts[m].alive, ts[m].sp);
             forall x :: m < x < n ==> RemovedRun(ss[x], ts[x]) != Some(runID)
    ensures var runID := AttachedRun(ss[m].entries, ts[m].dep, ts[m].alive, ts[m].sp);
            && Joinable(ss[n].entries, ts[n].dep, runID, pid)
            && (SpawnsFresh(ss[n].entries, ts[n].dep, ts[n].alive) <==> !ts[n].alive(pid))
            && (ts[n].alive(pid) ==> AttachedRun(ss[n].entries, ts[n].dep, ts[n].alive, ts[n].sp) == runID)
  {
    var dep, runID := ts[m].dep, AttachedRun(ss[m].entries, ts[m].dep, ts[m].alive, ts[m].sp);
    SavableThroughout(ids, ss, ts, m);
    AttachIsJoinable(ids, ss[m], ts[m]);
    assert ss[m + 1] == Next(ids, ss[m], ts[m]);
    pid :| Joinable(ss[m + 1].entries, dep, runID, pid);
    StaysJoinable(ids, ss, ts, m + 1, n, dep, runID, pid);
    AttachOfJoinable(ss[n].entries, dep, runID, pid, ts[n].alive, ts[n].sp);
  }

  lemma AttachOfJoinable(es: seq<Entry>, dep: string, runID: string, pid: int, alive: int -> bool, sp: Spawn)
    requires Joinable(es, dep, runID, pid)
    ensures SpawnsFresh(es, dep, alive) <==> !alive(pid)
    ensures alive(pid) ==> AttachedRun(es, dep, alive, sp) == runID
  {
    var k :| IsFirstBlocking(es, dep, k) && es[k].runID == runID && es[k].pid == pid;
    assert BlockingFor(dep)(es[k]) && forall j :: 0 <= j < k ==> !BlockingFor(dep)(es[j]);
    assert FirstIndex(es, BlockingFor(dep)) == Some(k as nat);
  }
}
