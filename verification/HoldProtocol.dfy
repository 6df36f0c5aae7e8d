/**
 * The hold protocol over whole runs: any number of client processes attach to, detach from and rebind holds on
 * blocking dependencies, one lock section at a time, in any order. Client `k` uses the holder id `ids[k]`. A stop
 * and a failed health gate remove the entry in a lock section of their own, later than the section that decided it.
 */
module HoldProtocol {
  import opened Options
  import opened Holders
  import opened Registry
  import opened LiveDeps

  /** What a client holds: the run it attached to, the pid it is recorded under, and the pid of its own process. */
  datatype Hold = Hold(runID: string, pid: int, own: int)

  /**
   * `gating` are the spawns still in their health gate, `stopping` the runs whose removal is decided, and `dead` the
   * pids whose processes have died.
   */
  datatype State = State(
    entries: seq<Entry>,
    holds: map<(nat, string), Hold>,
    gating: set<(nat, string)>,
    stopping: set<string>,
    dead: set<int>
  )

  datatype Step =
    | Attach(k: nat, dep: string, pid: int, alive: int -> bool, sp: Spawn)
    | GatePassed(k: nat, dep: string)
    | GateFailed(k: nat, dep: string)
    | Detach(k: nat, dep: string)
    | Stop(runID: string)
    | Rebind(k: nat, dep: string, newPid: int)
    | Crash(pid: int)

  ghost predicate Distinct(ids: seq<string>) {
    forall i, j :: 0 <= i < j < |ids| ==> ids[i] != ids[j]
  }

  /** A run id nothing in the system mentions yet. */
  ghost predicate Unused(s: State, runID: string) {
    && (forall i :: 0 <= i < |s.entries| ==> s.entries[i].runID != runID)
    && (forall key :: key in s.holds ==> s.holds[key].runID != runID)
    && runID !in s.stopping
  }

  /** A client past its health gate, whose process is still running. */
  predicate ByOwner(ids: seq<string>, s: State, k: nat, dep: string) {
    k < |ids| && (k, dep) in s.holds && (k, dep) !in s.gating && s.holds[(k, dep)].own !in s.dead
  }

  ghost predicate Enabled(ids: seq<string>, s: State, t: Step) {
    match t
    case Attach(k, dep, pid, alive, sp) =>
      && k < |ids| && (k, dep) !in s.holds && alive(pid) && pid !in s.dead && Unused(s, sp.runID)
      && AllOk(AttachTo(s.entries, dep, SensorHolder(ids[k], pid), alive, sp))
    case GatePassed(k, dep) => (k, dep) in s.gating
    case GateFailed(k, dep) => (k, dep) in s.gating && (k, dep) in s.holds
    case Detach(k, dep) => ByOwner(ids, s, k, dep)
    case Stop(runID) => runID in s.stopping
    case Rebind(k, dep, newPid) => ByOwner(ids, s, k, dep) && newPid >= 1 && newPid !in s.dead
    case Crash(pid) => pid !in s.dead
  }

  /** The rebind finds the client's record: under its own pid, in the first blocking entry of the dependency. */
  predicate RebindsOwn(s: State, k: nat, dep: string) {
    (k, dep) in s.holds && s.holds[(k, dep)].pid == s.holds[(k, dep)].own &&
    match FirstIndex(s.entries, BlockingFor(dep))
    case Some(i) => s.entries[i].runID == s.holds[(k, dep)].runID
    case None => false
  }

  /** What `Save` leaves in the file. */
  function Saved(es: seq<Entry>, rs: seq<Entry>): seq<Entry> {
    if AllOk(rs) then rs else es
  }

  function Next(ids: seq<string>, s: State, t: Step): State {
    match t
    case Attach(k, dep, pid, alive, sp) =>
      if k < |ids| then
        State(AttachTo(s.entries, dep, SensorHolder(ids[k], pid), alive, sp),
              s.holds[(k, dep) := Hold(AttachedRun(s.entries, dep, alive, sp), pid, pid)],
              if SpawnsFresh(s.entries, dep, alive) then s.gating + {(k, dep)} else s.gating,
              s.stopping, s.dead)
      else s
    case GatePassed(k, dep) => s.(gating := s.gating - {(k, dep)})
    case GateFailed(k, dep) =>
      if (k, dep) in s.holds then
        State(Saved(s.entries, RemoveRun(s.entries, s.holds[(k, dep)].runID)), s.holds - {(k, dep)},
          s.gating - {(k, dep)}, s.stopping, s.dead)
      else s
    case Detach(k, dep) =>
      if k < |ids| && (k, dep) in s.holds then
        var h := s.holds[(k, dep)];
        var m := SensorHolder(ids[k], h.own);
        State(Saved(s.entries, DetachFrom(s.entries, h.runID, m)), s.holds - {(k, dep)}, s.gating,
              if DetachStops(s.entries, h.runID, m) then s.stopping + {h.runID} else s.stopping, s.dead)
      else s
    case Stop(runID) => s.(entries := Saved(s.entries, RemoveRun(s.entries, runID)), stopping := s.stopping - {runID})
    case Rebind(k, dep, newPid) =>
      if k < |ids| && (k, dep) in s.holds then
        var h := s.holds[(k, dep)];
        var es := Saved(s.entries, RebindIn(s.entries, dep, SensorHolder(ids[k], h.own), newPid));
        if RebindsOwn(s, k, dep) then s.(entries := es, holds := s.holds[(k, dep) := Hold(h.runID, newPid, h.own)])
        else s.(entries := es)
      else s
    case Crash(pid) =>
      s.(holds := map key | key in s.holds && s.holds[key].pid != pid :: s.holds[key],
         gating := set key | key in s.gating && key in s.holds && s.holds[key].pid != pid :: key,
         dead := s.dead + {pid})
  }

  /** A stale record under the client's id that the attach takes for alive. */
  ghost predicate RevivesStale(s: State, id: string, dep: string, alive: int -> bool) {
    match FirstIndex(s.entries, BlockingFor(dep))
    case Some(i) =>
      alive(s.entries[i].pid) && exists h :: h in s.entries[i].heldBy && SameIDLive(alive, id, h) && h.pid in s.dead
    case None => false
  }

  // ---- What the registry must say ------------------------------------------------------------

  predicate IsRecord(h: Holder, id: string, dead: set<int>) {
    h.kind == "sensor" && h.id == id && h.pid !in dead
  }

  /** The pids, those of the dead left out, under which `id` is recorded as a sensor holder, in order. */
  function RecordPids(hs: seq<Holder>, id: string, dead: set<int>): seq<int> {
    if hs == [] then []
    else (if IsRecord(hs[0], id, dead) then [hs[0].pid] else []) + RecordPids(hs[1..], id, dead)
  }

  predicate IsForeign(ids: seq<string>, h: Holder) {
    h.kind != "sensor" || h.id !in ids
  }

  /** Records of nobody in the protocol: manual holds and holders outside the client set. */
  function Foreign(hs: seq<Holder>, ids: seq<string>): seq<Holder> {
    if hs == [] then []
    else (if IsForeign(ids, hs[0]) then [hs[0]] else []) + Foreign(hs[1..], ids)
  }

  predicate Holding(s: State, k: nat, e: Entry) {
    (k, e.sensorID) in s.holds && s.holds[(k, e.sensorID)].runID == e.runID
  }

  /** Exactly the record a client is owed in an entry: one under its pid if it holds the run, else none. */
  function Owed(s: State, k: nat, e: Entry): seq<int> {
    if Holding(s, k, e) then [s.holds[(k, e.sensorID)].pid] else []
  }

  ghost predicate RecordsExact(ids: seq<string>, s: State) {
    forall i, k :: 0 <= i < |s.entries| && 0 <= k < |ids| ==>
        RecordPids(s.entries[i].heldBy, ids[k], s.dead) == Owed(s, k, s.entries[i])
  }

  ghost predicate HasEntry(es: seq<Entry>, dep: string, runID: string) {
    exists i :: 0 <= i < |es| && es[i].sensorID == dep && es[i].runID == runID
  }

  /** No client holds a run whose entry is gone. */
  ghost predicate NoOrphan(ids: seq<string>, s: State) {
    forall key :: key in s.holds ==> key.0 < |ids| && HasEntry(s.entries, key.1, s.holds[key].runID)
  }

  ghost predicate RunsDistinct(es: seq<Entry>) {
    forall i, j :: 0 <= i < j < |es| ==> es[i].runID != es[j].runID
  }

  ghost predicate Held(ids: seq<string>, s: State) {
    RecordsExact(ids, s) && NoOrphan(ids, s) && RunsDistinct(s.entries)
  }

  /** Once a client takes part every entry is valid, so no later section of the protocol is refused. */
  ghost predicate Savable(s: State) {
    (s.holds == map[] && s.gating == {} && s.stopping == {}) || AllOk(s.entries)
  }

  /** Nobody attached yet and no record in a client's name; entries and foreign records are arbitrary. */
  ghost predicate Start(ids: seq<string>, s: State) {
    && s.holds == map[] && s.gating == {} && s.stopping == {} && RunsDistinct(s.entries)
    && forall i, k :: 0 <= i < |s.entries| && 0 <= k < |ids| ==> RecordPids(s.entries[i].heldBy, ids[k], s.dead) == []
  }

  /**
   * A step that leaves every record as it should be: a removal of an entry takes no other client's record with it, a
   * detach finds the record under the pid of its own process, and an attach takes no dead process for a live one.
   */
  ghost predicate Quiet(ids: seq<string>, s: State, t: Step) {
    match t
    case Stop(runID) =>
      forall i, k :: 0 <= i < |s.entries| && 0 <= k < |ids| && s.entries[i].runID == runID ==>
        RecordPids(s.entries[i].heldBy, ids[k], s.dead) == []
    case GateFailed(own, dep) =>
      (own, dep) in s.holds ==>
      forall i, k ::
        0 <= i < |s.entries| && 0 <= k < |ids| && k != own && s.entries[i].runID == s.holds[(own, dep)].runID ==>
        RecordPids(s.entries[i].heldBy, ids[k], s.dead) == []
    case Detach(k, dep) => (k, dep) in s.holds ==> s.holds[(k, dep)].pid == s.holds[(k, dep)].own
    case Attach(k, dep, _, alive, _) => k < |ids| ==> !RevivesStale(s, ids[k], dep, alive)
    case _ => true
  }

  // ---- Records under the list operations -----------------------------------------------------

  lemma ConcatTwice<T>(a: seq<T>, b: seq<T>, c: seq<T>)
    ensures a + (b + c) == (a + b) + c
  {}

  lemma {:induction false} RecordPidsAppend(a: seq<Holder>, b: seq<Holder>, id: string, dead: set<int>)
    ensures RecordPids(a + b, id, dead) == RecordPids(a, id, dead) + RecordPids(b, id, dead)
  {
    if a == [] {
      assert a + b == b;
    } else {
      RecordPidsAppend(a[1..], b, id, dead);
      assert (a + b)[1..] == a[1..] + b && (a + b)[0] == a[0];
      hide IsRecord;
      var first := if IsRecord(a[0], id, dead) then [a[0].pid] else [];
      ConcatTwice(first, RecordPids(a[1..], id, dead), RecordPids(b, id, dead));
    }
  }

  lemma OneRecordPid(h: Holder, id: string, dead: set<int>)
    ensures RecordPids([h], id, dead) == if IsRecord(h, id, dead) then [h.pid] else []
  {
    assert [h][1..] == [];
  }

  lemma {:induction false} ForeignAppend(a: seq<Holder>, b: seq<Holder>, ids: seq<string>)
    ensures Foreign(a + b, ids) == Foreign(a, ids) + Foreign(b, ids)
  {
    if a == [] {
      assert a + b == b;
    } else {
      ForeignAppend(a[1..], b, ids);
      assert (a + b)[1..] == a[1..] + b && (a + b)[0] == a[0];
      hide IsForeign;
      ConcatTwice(if IsForeign(ids, a[0]) then [a[0]] else [], Foreign(a[1..], ids), Foreign(b, ids));
    }
  }

  lemma OneForeign(h: Holder, ids: seq<string>)
    ensures Foreign([h], ids) == if IsForeign(ids, h) then [h] else []
  {
    assert [h][1..] == [];
  }

  /** Reaping one id's dead records leaves the records of other ids alone, and adds none to its own. */
  lemma {:induction false} ReapRecords(hs: seq<Holder>, alive: int -> bool, id: string, other: string, dead: set<int>)
    ensures var kept := Select(hs, NotSameIDDead(alive, id));
            && (other != id ==> RecordPids(kept, other, dead) == RecordPids(hs, other, dead))
            && (RecordPids(hs, id, dead) == [] ==> RecordPids(kept, id, dead) == [])
  {
    hide RecordPids;
    if hs != [] {
      var n := |hs| - 1;
      var init, last := hs[..n], [hs[n]];
      assert hs == init + last;
      ReapRecords(init, alive, id, other, dead);
      RecordPidsAppend(init, last, other, dead);
      RecordPidsAppend(init, last, id, dead);
      var kept := Select(init, NotSameIDDead(alive, id));
      RecordPidsAppend(kept, last, other, dead);
      RecordPidsAppend(kept, last, id, dead);
      OneRecordPid(hs[n], other, dead);
      assert kept + [] == kept;
    }
  }

  lemma {:induction false} ReapForeign(hs: seq<Holder>, alive: int -> bool, id: string, ids: seq<string>)
    requires id in ids
    ensures Foreign(Select(hs, NotSameIDDead(alive, id)), ids) == Foreign(hs, ids)
  {
    if hs != [] {
      var n := |hs| - 1;
      var init, last, kept := hs[..n], [hs[n]], Select(hs[..n], NotSameIDDead(alive, id));
      assert hs == init + last;
      ReapForeign(init, alive, id, ids);
      ForeignAppend(init, last, ids);
      ForeignAppend(kept, last, ids);
      OneForeign(hs[n], ids);
      hide Foreign;
      assert kept + [] == kept;
    }
  }

  /** Reaping takes no live record. */
  lemma ReapKeepsLive(hs: seq<Holder>, alive: int -> bool, id: string)
    ensures AnyLive(Select(hs, NotSameIDDead(alive, id)), alive, id) <==> AnyLive(hs, alive, id)
  {
    var kept := Select(hs, NotSameIDDead(alive, id));
    forall h | SameIDLive(alive, id, h) ensures h in kept <==> h in hs {
      SelectKeepsCount(hs, NotSameIDDead(alive, id), h);
      assert h in kept <==> multiset(kept)[h] > 0;
      assert h in hs <==> multiset(hs)[h] > 0;
    }
    hide Select;
    if AnyLive(hs, alive, id) {
      var i :| 0 <= i < |hs| && SameIDLive(alive, id, hs[i]);
      assert hs[i] in kept;
    }
    if AnyLive(kept, alive, id) {
      var i :| 0 <= i < |kept| && SameIDLive(alive, id, kept[i]);
      assert kept[i] in hs;
    }
  }

  /**
   * Joining an entry: a client that has no live record of its own gets exactly one, unless a stale record under its id
   * looks alive, and then none. Nobody else's record is touched.
   */
  lemma RejoinRecords(hs: seq<Holder>, alive: int -> bool, h: Holder, other: string, dead: set<int>)
    requires h.kind == "sensor" && h.pid !in dead && RecordPids(hs, h.id, dead) == []
    ensures RecordPids(Rejoin(hs, alive, h), other, dead) ==
            if other != h.id then RecordPids(hs, other, dead) else if AnyLive(hs, alive, h.id) then [] else [h.pid]
  {
    var kept := Select(hs, NotSameIDDead(alive, h.id));
    ReapRecords(hs, alive, h.id, other, dead);
    ReapKeepsLive(hs, alive, h.id);
    RecordPidsAppend(kept, [h], other, dead);
    OneRecordPid(h, other, dead);
    hide RecordPids, Select, AnyLive;
  }

  lemma RejoinForeign(hs: seq<Holder>, alive: int -> bool, h: Holder, ids: seq<string>)
    requires h.kind == "sensor" && h.id in ids
    ensures Foreign(Rejoin(hs, alive, h), ids) == Foreign(hs, ids)
  {
    var kept := Select(hs, NotSameIDDead(alive, h.id));
    ReapForeign(hs, alive, h.id, ids);
    ForeignAppend(kept, [h], ids);
    OneForeign(h, ids);
    hide Foreign, Select, AnyLive;
  }

  function LiveOnes(pids: seq<int>, alive: int -> bool): seq<int> {
    if pids == [] then []
    else LiveOnes(pids[..|pids| - 1], alive) + if alive(pids[|pids| - 1]) then [pids[|pids| - 1]] else []
  }

  /** Whatever was recorded: after joining, an id is recorded under its living old pids, or only under the new one. */
  lemma RejoinPids(hs: seq<Holder>, alive: int -> bool, h: Holder)
    requires h.kind == "sensor"
    ensures var live := LiveOnes(RecordPids(hs, h.id, {}), alive);
            RecordPids(Rejoin(hs, alive, h), h.id, {}) == if live == [] then [h.pid] else live
  {
    var kept := Select(hs, NotSameIDDead(alive, h.id));
    ReapedPids(hs, alive, h.id);
    ReapKeepsLive(hs, alive, h.id);
    RecordPidsAppend(kept, [h], h.id, {});
    OneRecordPid(h, h.id, {});
    hide RecordPids, Select, AnyLive;
  }

  lemma {:induction false} ReapedPids(hs: seq<Holder>, alive: int -> bool, id: string)
    ensures RecordPids(Select(hs, NotSameIDDead(alive, id)), id, {}) == LiveOnes(RecordPids(hs, id, {}), alive)
    ensures AnyLive(hs, alive, id) <==> LiveOnes(RecordPids(hs, id, {}), alive) != []
  {
    if hs == [] {
    } else {
      hide RecordPids, LiveOnes, AnyLive;
      var n := |hs| - 1;
      var init, last, kept := hs[..n], [hs[n]], Select(hs[..n], NotSameIDDead(alive, id));
      assert hs == init + last;
      ReapedPids(init, alive, id);
      RecordPidsAppend(init, last, id, {});
      RecordPidsAppend(kept, last, id, {});
      OneRecordPid(hs[n], id, {});
      LiveOnesNext(RecordPids(init, id, {}), hs[n].pid, alive);
      AnyLiveNext(init, hs[n], alive, id);
      assert kept + [] == kept && RecordPids(init, id, {}) + [] == RecordPids(init, id, {});
    }
  }

  lemma LiveOnesNext(pids: seq<int>, pid: int, alive: int -> bool)
    ensures LiveOnes(pids + [pid], alive) == LiveOnes(pids, alive) + if alive(pid) then [pid] else []
  {
    assert (pids + [pid])[..|pids|] == pids;
  }

  lemma AnyLiveNext(hs: seq<Holder>, h: Holder, alive: int -> bool, id: string)
    ensures AnyLive(hs + [h], alive, id) <==> AnyLive(hs, alive, id) || SameIDLive(alive, id, h)
  {
    hide SameIDLive;
    assert (hs + [h])[|hs|] == h;
    assert forall i :: 0 <= i < |hs| ==> (hs + [h])[i] == hs[i];
  }

  /** If `id` is recorded once, under `pid`, the first record that matches is that one. */
  lemma FirstRecord(hs: seq<Holder>, id: string, pid: int, dead: set<int>)
    requires RecordPids(hs, id, dead) == [pid]
    ensures hs != [] && pid !in dead
    ensures HoldersMatch(hs[0], SensorHolder(id, pid)) ==> RecordPids(hs[1..], id, dead) == []
    ensures !HoldersMatch(hs[0], SensorHolder(id, pid)) ==> RecordPids(hs[1..], id, dead) == [pid]
  {
    var rest := RecordPids(hs[1..], id, dead);
    RecordedIsLive(hs, id, dead);
    if IsRecord(hs[0], id, dead) {
      assert RecordPids(hs, id, dead)[0] == hs[0].pid && RecordPids(hs, id, dead)[1..] == rest;
    } else {
      assert rest == RecordPids(hs, id, dead);
    }
  }

  lemma {:induction false} RecordedIsLive(hs: seq<Holder>, id: string, dead: set<int>)
    ensures forall p :: p in RecordPids(hs, id, dead) ==> p !in dead
  {
    if hs != [] { RecordedIsLive(hs[1..], id, dead); }
  }

  lemma {:induction false} RemoveMatchRecords(hs: seq<Holder>, id: string, pid: int, other: string, dead: set<int>)
    requires RecordPids(hs, id, dead) == [pid]
    ensures RecordPids(RemoveMatch(hs, SensorHolder(id, pid)), other, dead) ==
            if other == id then [] else RecordPids(hs, other, dead)
  {
    FirstRecord(hs, id, pid, dead);
    var m := SensorHolder(id, pid);
    if HoldersMatch(hs[0], m) {
      assert RemoveMatch(hs, m) == hs[1..];
      assert other != id ==> RecordPids(hs, other, dead) == [] + RecordPids(hs[1..], other, dead);
    } else {
      RemoveMatchRecords(hs[1..], id, pid, other, dead);
      ConsRecords(hs[0], hs[1..], other, dead);
      ConsRecords(hs[0], RemoveMatch(hs[1..], m), other, dead);
      assert hs == [hs[0]] + hs[1..];
    }
  }

  lemma ConsRecords(h: Holder, a: seq<Holder>, id: string, dead: set<int>)
    ensures RecordPids([h] + a, id, dead) == (if IsRecord(h, id, dead) then [h.pid] else []) + RecordPids(a, id, dead)
  {
    assert ([h] + a)[1..] == a;
  }

  lemma {:induction false} RepidRecords(hs: seq<Holder>, id: string, pid: int, newPid: int, other: string,
                                        dead: set<int>)
    requires RecordPids(hs, id, dead) == [pid] && newPid !in dead
    ensures RecordPids(Repid(hs, SensorHolder(id, pid), newPid), other, dead) ==
            if other == id then [newPid] else RecordPids(hs, other, dead)
  {
    FirstRecord(hs, id, pid, dead);
    var m := SensorHolder(id, pid);
    if HoldersMatch(hs[0], m) {
      var moved := hs[0].(pid := newPid);
      assert ([moved] + hs[1..])[1..] == hs[1..];
    } else {
      RepidRecords(hs[1..], id, pid, newPid, other, dead);
      ConsRecords(hs[0], hs[1..], other, dead);
      ConsRecords(hs[0], Repid(hs[1..], m, newPid), other, dead);
      assert hs == [hs[0]] + hs[1..];
    }
  }

  /** Neither operation finds a record that is not there. */
  lemma {:induction false} NothingMatches(hs: seq<Holder>, id: string, pid: int, newPid: int, dead: set<int>)
    requires pid !in RecordPids(hs, id, dead) && pid !in dead
    ensures Repid(hs, SensorHolder(id, pid), newPid) == hs && RemoveMatch(hs, SensorHolder(id, pid)) == hs
  {
    if hs != [] {
      var rest := RecordPids(hs[1..], id, dead);
      assert RecordPids(hs, id, dead) == (if IsRecord(hs[0], id, dead) then [hs[0].pid] else []) + rest;
      NothingMatches(hs[1..], id, pid, newPid, dead);
    }
  }

  /** Removing or moving a client's record leaves the foreign ones alone. */
  lemma {:induction false} OwnChangesKeepForeign(hs: seq<Holder>, id: string, pid: int, newPid: int, ids: seq<string>)
    requires id in ids
    ensures Foreign(RemoveMatch(hs, SensorHolder(id, pid)), ids) == Foreign(hs, ids)
    ensures Foreign(Repid(hs, SensorHolder(id, pid), newPid), ids) == Foreign(hs, ids)
  {
    var m := SensorHolder(id, pid);
    if hs != [] {
      if HoldersMatch(hs[0], m) {
        assert Foreign(hs, ids) == [] + Foreign(hs[1..], ids);
        assert ([hs[0].(pid := newPid)] + hs[1..])[1..] == hs[1..];
      } else {
        OwnChangesKeepForeign(hs[1..], id, pid, newPid, ids);
        assert ([hs[0]] + RemoveMatch(hs[1..], m))[1..] == RemoveMatch(hs[1..], m);
        assert ([hs[0]] + Repid(hs[1..], m, newPid))[1..] == Repid(hs[1..], m, newPid);
      }
    }
  }

  /** Every record is that of a client that has not died. */
  ghost predicate OnlyLiveClients(hs: seq<Holder>, ids: seq<string>, dead: set<int>) {
    forall h :: h in hs ==> !IsForeign(ids, h) && h.pid !in dead
  }

  /** A list is empty exactly when it has only records of living clients, and none of any of them. */
  lemma {:induction false} EmptyIffNoRecords(hs: seq<Holder>, ids: seq<string>, dead: set<int>)
    ensures hs == [] <==>
            OnlyLiveClients(hs, ids, dead) && forall k :: 0 <= k < |ids| ==> RecordPids(hs, ids[k], dead) == []
  {
    if hs != [] && OnlyLiveClients(hs, ids, dead) {
      assert hs[0] in hs;
      var k :| 0 <= k < |ids| && ids[k] == hs[0].id;
      assert RecordPids(hs, ids[k], dead) != [];
    }
  }

  lemma {:induction false} RemovalKeepsOthers(hs: seq<Holder>, m: Holder)
    ensures forall h :: h in RemoveMatch(hs, m) ==> h in hs
    ensures forall h :: h in hs && !HoldersMatch(h, m) ==> h in RemoveMatch(hs, m)
  {
    if hs != [] && !HoldersMatch(hs[0], m) {
      RemovalKeepsOthers(hs[1..], m);
    }
  }

  lemma OnlyLiveAfterRemoval(hs: seq<Holder>, id: string, pid: int, ids: seq<string>, dead: set<int>)
    requires id in ids && pid !in dead
    ensures OnlyLiveClients(RemoveMatch(hs, SensorHolder(id, pid)), ids, dead) <==> OnlyLiveClients(hs, ids, dead)
  {
    RemovalKeepsOthers(hs, SensorHolder(id, pid));
    hide RemoveMatch;
  }

  lemma {:induction false} RemoveRunKeeps(es: seq<Entry>, runID: string)
    ensures forall i :: 0 <= i < |RemoveRun(es, runID)| ==>
            RemoveRun(es, runID)[i] in es && RemoveRun(es, runID)[i].runID != runID
    ensures forall e :: e in es && e.runID != runID ==> e in RemoveRun(es, runID)
    ensures RunsDistinct(es) ==> RunsDistinct(RemoveRun(es, runID))
  {
    if es != [] {
      var n := |es| - 1;
      RemoveRunKeeps(es[..n], runID);
      assert es == es[..n] + [es[n]];
      var shorter := RemoveRun(es[..n], runID);
      forall i | 0 <= i < |shorter| && RunsDistinct(es) ensures shorter[i].runID != es[n].runID {
        var j :| 0 <= j < n && es[..n][j] == shorter[i];
        assert es[j].runID != es[n].runID;
      }
    }
  }

  // ---- Every section but the attach is always saved ------------------------------------------

  lemma {:induction false} RepidOk(hs: seq<Holder>, m: Holder, newPid: int)
    requires newPid >= 1 && forall h :: h in hs ==> HolderOk(h)
    ensures forall h :: h in Repid(hs, m, newPid) ==> HolderOk(h)
  {
    if hs != [] {
      assert forall h :: h in hs[1..] ==> h in hs;
      if !HoldersMatch(hs[0], m) { RepidOk(hs[1..], m, newPid); }
    }
  }

  lemma UpdateOk(es: seq<Entry>, i: nat, hs: seq<Holder>)
    requires AllOk(es) && i < |es| && forall h :: h in hs ==> HolderOk(h)
    ensures AllOk(es[i := es[i].(heldBy := hs)])
  {
    assert EntryOk(es[i].(heldBy := hs));
  }

  /** The entries a step leaves, the save included. */
  function Written(ids: seq<string>, s: State, t: Step): seq<Entry> {
    match t
    case GateFailed(k, dep) => if (k, dep) in s.holds then RemoveRun(s.entries, s.holds[(k, dep)].runID) else s.entries
    case Stop(runID) => RemoveRun(s.entries, runID)
    case Detach(k, dep) =>
      if k < |ids| && (k, dep) in s.holds
      then DetachFrom(s.entries, s.holds[(k, dep)].runID, SensorHolder(ids[k], s.holds[(k, dep)].own)) else s.entries
    case Rebind(k, dep, newPid) =>
      if k < |ids| && (k, dep) in s.holds
      then RebindIn(s.entries, dep, SensorHolder(ids[k], s.holds[(k, dep)].own), newPid) else s.entries
    case Attach(k, dep, pid, alive, sp) =>
      if k < |ids| then AttachTo(s.entries, dep, SensorHolder(ids[k], pid), alive, sp) else s.entries
    case GatePassed(_, _) => s.entries
    case Crash(_) => s.entries
  }

  lemma SectionsAreSaved(ids: seq<string>, s: State, t: Step)
    requires Savable(s) && Enabled(ids, s, t)
    ensures Savable(Next(ids, s, t)) && Next(ids, s, t).entries == Written(ids, s, t)
  {
    match t
    case Attach(_, _, _, _, _) =>
    case GatePassed(_, _) =>
    case Crash(_) =>
    case GateFailed(k, dep) => RemoveRunKeeps(s.entries, s.holds[(k, dep)].runID);
    case Stop(runID) => RemoveRunKeeps(s.entries, runID);
    case Detach(k, dep) =>
      var h := s.holds[(k, dep)];
      var i := FirstIndex(s.entries, WithRun(h.runID));
      if i.Some? {
        var hs := s.entries[i.value].heldBy;
        RemovalKeepsOthers(hs, SensorHolder(ids[k], h.own));
        UpdateOk(s.entries, i.value, RemoveMatch(hs, SensorHolder(ids[k], h.own)));
      }
    case Rebind(k, dep, newPid) =>
      var h := s.holds[(k, dep)];
      var i := FirstIndex(s.entries, BlockingFor(dep));
      if i.Some? {
        var hs := s.entries[i.value].heldBy;
        RepidOk(hs, SensorHolder(ids[k], h.own), newPid);
        UpdateOk(s.entries, i.value, Repid(hs, SensorHolder(ids[k], h.own), newPid));
      }
  }

  // ---- One step ------------------------------------------------------------------------------

  /** A run id names one entry, so finding it by run finds the held entry. */
  lemma FoundByRun(es: seq<Entry>, i: nat)
    requires RunsDistinct(es) && i < |es|
    ensures FirstIndex(es, WithRun(es[i].runID)) == Some(i)
  {
    var r := FirstIndex(es, WithRun(es[i].runID));
    assert WithRun(es[i].runID)(es[i]);
  }

  /** Two lists that agree on sensor and run ids offer the same entries to hold. */
  lemma EntriesKept(es: seq<Entry>, es': seq<Entry>)
    requires |es| == |es'| && forall i :: 0 <= i < |es| ==>
             es[i].sensorID == es'[i].sensorID && es[i].runID == es'[i].runID
    ensures forall dep, runID :: HasEntry(es, dep, runID) ==> HasEntry(es', dep, runID)
    ensures RunsDistinct(es) ==> RunsDistinct(es')
  {
    forall dep, runID | HasEntry(es, dep, runID) ensures HasEntry(es', dep, runID) {
      var i :| 0 <= i < |es| && es[i].sensorID == dep && es[i].runID == runID;
      assert es'[i].sensorID == dep;
    }
  }

  /** `s'` differs from `s` in the hold of one key only. */
  ghost predicate OnlyHold(s: State, s': State, key: (nat, string)) {
    forall other :: other != key ==>
      (other in s.holds <==> other in s'.holds) && (other in s.holds ==> s.holds[other] == s'.holds[other])
  }

  /** What is owed to others, and in other entries, does not depend on one client's hold of one run. */
  lemma OwedElsewhere(s: State, s': State, k: nat, dep: string, runID: string, m: nat, e: Entry)
    requires OnlyHold(s, s', (k, dep))
    requires (k, dep) in s.holds ==> s.holds[(k, dep)].runID == runID
    requires (k, dep) in s'.holds ==> s'.holds[(k, dep)].runID == runID
    requires m != k || e.runID != runID
    ensures Owed(s, m, e) == Owed(s', m, e)
  {}

  /** Editing one entry's records as one client's hold of it changes keeps every record exact. */
  lemma EditKeepsHeld(ids: seq<string>, s: State, s': State, i: nat, hs: seq<Holder>, k: nat)
    requires Held(ids, s) && i < |s.entries| && k < |ids|
    requires s'.entries == s.entries[i := s.entries[i].(heldBy := hs)] && s'.dead == s.dead
    requires OnlyHold(s, s', (k, s.entries[i].sensorID))
    requires (k, s.entries[i].sensorID) in s.holds ==> s.holds[(k, s.entries[i].sensorID)].runID == s.entries[i].runID
    requires (k, s.entries[i].sensorID) in s'.holds ==> s'.holds[(k, s.entries[i].sensorID)].runID == s.entries[i].runID
    requires forall m :: 0 <= m < |ids| && m != k ==>
                           RecordPids(hs, ids[m], s.dead) == RecordPids(s.entries[i].heldBy, ids[m], s.dead)
    requires RecordPids(hs, ids[k], s.dead) == Owed(s', k, s.entries[i])
    ensures Held(ids, s')
  {
    var dep, runID := s.entries[i].sensorID, s.entries[i].runID;
    forall j, m | 0 <= j < |s'.entries| && 0 <= m < |ids|
      ensures RecordPids(s'.entries[j].heldBy, ids[m], s'.dead) == Owed(s', m, s'.entries[j])
    {
      assert RecordPids(s.entries[j].heldBy, ids[m], s.dead) == Owed(s, m, s.entries[j]);
      assert j != i ==> s.entries[j].runID != runID;
      if m != k || j != i { OwedElsewhere(s, s', k, dep, runID, m, s.entries[j]); }
      assert Owed(s', m, s'.entries[j]) == Owed(s', m, s.entries[j]);
    }
    EntriesKept(s.entries, s'.entries);
    forall key | key in s'.holds ensures key.0 < |ids| && HasEntry(s'.entries, key.1, s'.holds[key].runID) {
      if key == (k, dep) { assert HasEntry(s.entries, dep, runID); }
    }
  }

  lemma AttachStep(ids: seq<string>, s: State, t: Step)
    requires t.Attach? && Distinct(ids) && Held(ids, s) && Enabled(ids, s, t)
    ensures Held(ids, Next(ids, s, t)) <==> Quiet(ids, s, t)
  {
    var Attach(k, dep, pid, alive, sp) := t;
    var s' := Next(ids, s, t);
    var h := SensorHolder(ids[k], pid);
    if SpawnsFresh(s.entries, dep, alive) {
      FreshKeepsHeld(ids, s, k, Entry(dep, sp.runID, true, sp.pid, sp.pgid, sp.watcherPID, [h]), pid, s');
    } else {
      var i := FirstIndex(s.entries, BlockingFor(dep)).value;
      var hs := s.entries[i].heldBy;
      assert RecordPids(hs, ids[k], s.dead) == Owed(s, k, s.entries[i]);
      hide Enabled;
      JoinStep(ids, s, s', k, i, h, alive);
      StaleLooksLive(hs, alive, ids[k], s.dead);
      hide RecordPids, Held, Rejoin, AnyLive;
    }
  }

  /** Joining keeps every record exact unless a stale one looks alive. */
  lemma JoinStep(ids: seq<string>, s: State, s': State, k: nat, i: nat, h: Holder, alive: int -> bool)
    requires Distinct(ids) && Held(ids, s) && k < |ids| && i < |s.entries| && h == SensorHolder(ids[k], h.pid)
    requires h.pid !in s.dead && (k, s.entries[i].sensorID) !in s.holds
    requires RecordPids(s.entries[i].heldBy, ids[k], s.dead) == [] && s'.dead == s.dead
    requires s'.entries == s.entries[i := s.entries[i].(heldBy := Rejoin(s.entries[i].heldBy, alive, h))]
    requires s'.holds == s.holds[(k, s.entries[i].sensorID) := Hold(s.entries[i].runID, h.pid, h.pid)]
    ensures Held(ids, s') <==> !AnyLive(s.entries[i].heldBy, alive, ids[k])
  {
    var hs := s.entries[i].heldBy;
    var joined := Rejoin(hs, alive, h);
    forall m | 0 <= m < |ids|
      ensures RecordPids(joined, ids[m], s.dead) ==
              if m != k then RecordPids(hs, ids[m], s.dead) else if AnyLive(hs, alive, ids[k]) then [] else [h.pid]
    {
      RejoinRecords(hs, alive, h, ids[m], s.dead);
      assert m != k ==> ids[m] != ids[k];
    }
    hide RecordPids, Rejoin, AnyLive;
    if AnyLive(hs, alive, ids[k]) {
      MissingRecord(ids, s', i, k);
    } else {
      hide Held;
      EditKeepsHeld(ids, s, s', i, joined, k);
    }
  }

  lemma MissingRecord(ids: seq<string>, s: State, i: nat, k: nat)
    requires i < |s.entries| && k < |ids| && RecordPids(s.entries[i].heldBy, ids[k], s.dead) == []
    requires Holding(s, k, s.entries[i])
    ensures !Held(ids, s)
  {
    hide RecordPids;
    assert Owed(s, k, s.entries[i]) != [];
  }

  /** With no record of its own, what looks alive under an id is stale. */
  lemma StaleLooksLive(hs: seq<Holder>, alive: int -> bool, id: string, dead: set<int>)
    requires RecordPids(hs, id, dead) == []
    ensures AnyLive(hs, alive, id) <==> exists h :: h in hs && SameIDLive(alive, id, h) && h.pid in dead
  {
    NoRecordIsLive(hs, id, dead);
    hide RecordPids;
    if AnyLive(hs, alive, id) {
      var i :| 0 <= i < |hs| && SameIDLive(alive, id, hs[i]);
      assert hs[i] in hs;
    }
  }

  lemma {:induction false} NoRecordIsLive(hs: seq<Holder>, id: string, dead: set<int>)
    requires RecordPids(hs, id, dead) == []
    ensures forall h :: h in hs && h.kind == "sensor" && h.id == id ==> h.pid in dead
  {
    if hs != [] {
      NoRecordIsLive(hs[1..], id, dead);
      assert hs == [hs[0]] + hs[1..];
    }
  }

  lemma OneOwnRecord(ids: seq<string>, k: nat, m: nat, pid: int, dead: set<int>)
    requires Distinct(ids) && k < |ids| && m < |ids| && pid !in dead
    ensures RecordPids([SensorHolder(ids[k], pid)], ids[m], dead) == if m == k then [pid] else []
  {
    assert m != k ==> ids[m] != ids[k];
    assert [SensorHolder(ids[k], pid)][1..] == [];
  }

  lemma FreshKeepsHeld(ids: seq<string>, s: State, k: nat, e: Entry, pid: int, s': State)
    requires Distinct(ids) && Held(ids, s) && k < |ids| && (k, e.sensorID) !in s.holds && Unused(s, e.runID)
    requires e.heldBy == [SensorHolder(ids[k], pid)]
    requires s'.entries == s.entries + [e] && s'.holds == s.holds[(k, e.sensorID) := Hold(e.runID, pid, pid)]
    requires s'.dead == s.dead && pid !in s.dead
    ensures Held(ids, s')
  {
    hide RecordPids, Owed, Unused;
    forall i, j | 0 <= i < |s'.entries| && 0 <= j < |ids|
      ensures RecordPids(s'.entries[i].heldBy, ids[j], s'.dead) == Owed(s', j, s'.entries[i])
    {
      FreshRecord(ids, s, k, e, pid, s', i, j);
    }
    forall key | key in s'.holds ensures key.0 < |ids| && HasEntry(s'.entries, key.1, s'.holds[key].runID) {
      FreshEntry(ids, s, k, e, pid, s', key);
    }
    FreshRunIsDistinct(s, e);
  }

  lemma FreshRunIsDistinct(s: State, e: Entry)
    requires RunsDistinct(s.entries) && Unused(s, e.runID)
    ensures RunsDistinct(s.entries + [e])
  {}

  lemma FreshRecord(ids: seq<string>, s: State, k: nat, e: Entry, pid: int, s': State, i: nat, j: nat)
    requires Distinct(ids) && Held(ids, s) && k < |ids| && (k, e.sensorID) !in s.holds && Unused(s, e.runID)
    requires e.heldBy == [SensorHolder(ids[k], pid)] && i < |s'.entries| && j < |ids|
    requires s'.entries == s.entries + [e] && s'.holds == s.holds[(k, e.sensorID) := Hold(e.runID, pid, pid)]
    requires s'.dead == s.dead && pid !in s.dead
    ensures RecordPids(s'.entries[i].heldBy, ids[j], s'.dead) == Owed(s', j, s'.entries[i])
  {
    if i < |s.entries| {
      assert RecordPids(s.entries[i].heldBy, ids[j], s.dead) == Owed(s, j, s.entries[i]);
      OwedElsewhere(s, s', k, e.sensorID, e.runID, j, s.entries[i]);
    } else {
      OneOwnRecord(ids, k, j, pid, s.dead);
    }
  }

  lemma FreshEntry(ids: seq<string>, s: State, k: nat, e: Entry, pid: int, s': State, key: (nat, string))
    requires Held(ids, s) && k < |ids| && key in s'.holds
    requires s'.entries == s.entries + [e] && s'.holds == s.holds[(k, e.sensorID) := Hold(e.runID, pid, pid)]
    ensures key.0 < |ids| && HasEntry(s'.entries, key.1, s'.holds[key].runID)
  {
    hide RecordPids;
    assert s'.entries[|s.entries|] == e;
    if key != (k, e.sensorID) {
      var i :| 0 <= i < |s.entries| && s.entries[i].sensorID == key.1 && s.entries[i].runID == s.holds[key].runID;
      assert s'.entries[i] == s.entries[i];
    }
  }

  lemma DetachStep(ids: seq<string>, s: State, t: Step)
    requires t.Detach? && Distinct(ids) && Held(ids, s) && Savable(s) && Enabled(ids, s, t)
    ensures Held(ids, Next(ids, s, t)) <==> Quiet(ids, s, t)
  {
    var Detach(k, dep) := t;
    SectionsAreSaved(ids, s, t);
    var hold := s.holds[(k, dep)];
    var i := HeldIndex(ids, s, k, dep);
    var hs := s.entries[i].heldBy;
    var s' := Next(ids, s, t);
    if hold.pid == hold.own {
      LeftAfterDetach(ids, hs, k, hold.pid, s.dead);
      hide RecordPids, Held, RemoveMatch, Saved, SensorHolder;
      EditKeepsHeld(ids, s, s', i, RemoveMatch(hs, SensorHolder(ids[k], hold.pid)), k);
    } else {
      NothingMatches(hs, ids[k], hold.own, 0, s.dead);
      StaleRecord(ids, s, s', i, k);
    }
  }

  /** A record that stays although its client is gone. */
  lemma StaleRecord(ids: seq<string>, s: State, s': State, i: nat, k: nat)
    requires k < |ids| && i < |s.entries| && s'.entries == s.entries[i := s.entries[i].(heldBy := s.entries[i].heldBy)]
    requires RecordPids(s.entries[i].heldBy, ids[k], s.dead) != [] && (k, s.entries[i].sensorID) !in s'.holds
    requires s'.dead == s.dead
    ensures !Held(ids, s')
  {
    hide RecordPids;
    assert s'.entries[i] == s.entries[i];
    assert Owed(s', k, s'.entries[i]) == [];
  }

  /** The one entry a client's hold names, as both lookups find it. */
  lemma HeldIndex(ids: seq<string>, s: State, k: nat, dep: string) returns (i: nat)
    requires Held(ids, s) && k < |ids| && (k, dep) in s.holds
    ensures i < |s.entries| && s.entries[i].sensorID == dep && s.entries[i].runID == s.holds[(k, dep)].runID
    ensures FirstIndex(s.entries, WithRun(s.holds[(k, dep)].runID)) == Some(i)
    ensures RecordPids(s.entries[i].heldBy, ids[k], s.dead) == [s.holds[(k, dep)].pid]
  {
    i :| 0 <= i < |s.entries| && s.entries[i].sensorID == dep && s.entries[i].runID == s.holds[(k, dep)].runID;
    FoundByRun(s.entries, i);
    assert RecordPids(s.entries[i].heldBy, ids[k], s.dead) == Owed(s, k, s.entries[i]);
  }

  lemma RebindKeepsHeld(ids: seq<string>, s: State, t: Step)
    requires t.Rebind? && Distinct(ids) && Held(ids, s) && Savable(s) && Enabled(ids, s, t)
    ensures Held(ids, Next(ids, s, t))
    ensures !RebindsOwn(s, t.k, t.dep) ==> Next(ids, s, t) == s
  {
    var Rebind(k, dep, newPid) := t;
    SectionsAreSaved(ids, s, t);
    var hold := s.holds[(k, dep)];
    var found := FirstIndex(s.entries, BlockingFor(dep));
    if found.Some? {
      var i := found.value;
      var hs := s.entries[i].heldBy;
      assert RecordPids(hs, ids[k], s.dead) == Owed(s, k, s.entries[i]);
      if RebindsOwn(s, k, dep) {
        forall m | 0 <= m < |ids|
          ensures RecordPids(Repid(hs, SensorHolder(ids[k], hold.pid), newPid), ids[m], s.dead) ==
                  if m == k then [newPid] else RecordPids(hs, ids[m], s.dead)
        {
          RepidRecords(hs, ids[k], hold.pid, newPid, ids[m], s.dead);
          assert m != k ==> ids[m] != ids[k];
        }
        var s' := Next(ids, s, t);
        hide RecordPids, Held, Repid, Saved, SensorHolder;
        EditKeepsHeld(ids, s, s', i, Repid(hs, SensorHolder(ids[k], hold.pid), newPid), k);
      } else {
        NothingMatches(hs, ids[k], hold.own, newPid, s.dead);
        assert s.entries[i := s.entries[i].(heldBy := hs)] == s.entries;
      }
    }
  }

  // ---- Removals ------------------------------------------------------------------------------

  /** Removing a run keeps the rest exact, whoever held the run no longer holding it. */
  lemma RemovalKeepsHeld(ids: seq<string>, s: State, s': State, runID: string)
    requires Held(ids, s) && s'.entries == RemoveRun(s.entries, runID) && s'.dead == s.dead
    requires forall key :: key in s'.holds <==> key in s.holds && s.holds[key].runID != runID
    requires forall key :: key in s'.holds ==> s'.holds[key] == s.holds[key]
    ensures Held(ids, s')
  {
    RemoveRunKeeps(s.entries, runID);
    hide RemoveRun, RecordPids;
    forall j, m | 0 <= j < |s'.entries| && 0 <= m < |ids|
      ensures RecordPids(s'.entries[j].heldBy, ids[m], s'.dead) == Owed(s', m, s'.entries[j])
    {
      RecordsSurvive(ids, s, s', runID, j, m);
    }
    forall key | key in s'.holds ensures key.0 < |ids| && HasEntry(s'.entries, key.1, s'.holds[key].runID) {
      EntrySurvives(ids, s, s', key);
    }
  }

  lemma RecordsSurvive(ids: seq<string>, s: State, s': State, runID: string, j: nat, m: nat)
    requires Held(ids, s) && j < |s'.entries| && m < |ids| && s'.dead == s.dead
    requires forall e :: e in s'.entries <==> e in s.entries && e.runID != runID
    requires forall key :: key in s'.holds <==> key in s.holds && s.holds[key].runID != runID
    requires forall key :: key in s'.holds ==> s'.holds[key] == s.holds[key]
    ensures RecordPids(s'.entries[j].heldBy, ids[m], s'.dead) == Owed(s', m, s'.entries[j])
  {
    hide RecordPids;
    assert s'.entries[j] in s'.entries;
    var i :| 0 <= i < |s.entries| && s.entries[i] == s'.entries[j];
    assert RecordPids(s.entries[i].heldBy, ids[m], s.dead) == Owed(s, m, s.entries[i]);
  }

  lemma EntrySurvives(ids: seq<string>, s: State, s': State, key: (nat, string))
    requires Held(ids, s) && key in s'.holds && key in s.holds && s'.holds[key] == s.holds[key]
    requires forall e :: e in s.entries && e.runID == s.holds[key].runID ==> e in s'.entries
    ensures key.0 < |ids| && HasEntry(s'.entries, key.1, s'.holds[key].runID)
  {
    hide RecordPids;
    var i :| 0 <= i < |s.entries| && s.entries[i].sensorID == key.1 && s.entries[i].runID == s.holds[key].runID;
    assert s.entries[i] in s'.entries;
    var j :| 0 <= j < |s'.entries| && s'.entries[j] == s.entries[i];
  }

  /** Removing a run somebody still holds orphans that client. */
  lemma RemovalOrphans(ids: seq<string>, s: State, s': State, key: (nat, string))
    requires key in s'.holds && s'.entries == RemoveRun(s.entries, s'.holds[key].runID)
    ensures !Held(ids, s')
  {
    RemoveRunKeeps(s.entries, s'.holds[key].runID);
    assert !HasEntry(s'.entries, key.1, s'.holds[key].runID);
  }

  /** A run nobody holds has no client record, and the other way round. */
  lemma RecordsShowHolders(ids: seq<string>, s: State, runID: string, but: Option<nat>)
    requires Held(ids, s)
    ensures (forall i, k :: 0 <= i < |s.entries| && 0 <= k < |ids| && but != Some(k) && s.entries[i].runID == runID ==>
              RecordPids(s.entries[i].heldBy, ids[k], s.dead) == [])
            <==> forall key :: key in s.holds && s.holds[key].runID == runID ==> but == Some(key.0)
  {
    if key :| key in s.holds && s.holds[key].runID == runID && but != Some(key.0) {
      var i := HeldIndex(ids, s, key.0, key.1);
      assert s.entries[i].runID == runID && RecordPids(s.entries[i].heldBy, ids[key.0], s.dead) != [];
    } else {
      forall i, k | 0 <= i < |s.entries| && 0 <= k < |ids| && but != Some(k) && s.entries[i].runID == runID
        ensures RecordPids(s.entries[i].heldBy, ids[k], s.dead) == []
      {
        assert RecordPids(s.entries[i].heldBy, ids[k], s.dead) == Owed(s, k, s.entries[i]);
        assert (k, s.entries[i].sensorID) in s.holds ==> s.holds[(k, s.entries[i].sensorID)].runID != runID;
      }
    }
  }

  lemma StopStep(ids: seq<string>, s: State, t: Step)
    requires t.Stop? && Held(ids, s) && Savable(s) && Enabled(ids, s, t)
    ensures Held(ids, Next(ids, s, t)) <==> Quiet(ids, s, t)
  {
    SectionsAreSaved(ids, s, t);
    var s' := Next(ids, s, t);
    RecordsShowHolders(ids, s, t.runID, None);
    hide RecordPids, Held, Saved;
    if key :| key in s.holds && s.holds[key].runID == t.runID {
      RemovalOrphans(ids, s, s', key);
    } else {
      RemovalKeepsHeld(ids, s, s', t.runID);
    }
  }

  /** A client holds a run under one dependency only. */
  lemma OneKeyPerRun(ids: seq<string>, s: State, k: nat, dep: string, key: (nat, string))
    requires Held(ids, s) && (k, dep) in s.holds && key in s.holds && key.0 == k
    requires s.holds[key].runID == s.holds[(k, dep)].runID
    ensures key == (k, dep)
  {
    var i := HeldIndex(ids, s, k, dep);
    var j := HeldIndex(ids, s, k, key.1);
    assert i == j;
  }

  lemma GateFailedStep(ids: seq<string>, s: State, t: Step)
    requires t.GateFailed? && Held(ids, s) && Savable(s) && Enabled(ids, s, t)
    ensures Held(ids, Next(ids, s, t)) <==> Quiet(ids, s, t)
  {
    SectionsAreSaved(ids, s, t);
    var s' := Next(ids, s, t);
    var runID := s.holds[(t.k, t.dep)].runID;
    QuietGateFailure(ids, s, t);
    assert s'.entries == RemoveRun(s.entries, runID) && s'.holds == s.holds - {(t.k, t.dep)} && s'.dead == s.dead;
    hide *;
    if key :| key in s'.holds && s.holds[key].runID == runID {
      RemovalOrphans(ids, s, s', key);
    } else {
      assert forall key :: key in s.holds && s.holds[key].runID == runID ==> key == (t.k, t.dep);
      RemovalKeepsHeld(ids, s, s', runID);
    }
  }

  lemma QuietGateFailure(ids: seq<string>, s: State, t: Step)
    requires t.GateFailed? && Held(ids, s) && Enabled(ids, s, t)
    ensures Quiet(ids, s, t) <==>
            forall key :: key in s.holds && s.holds[key].runID == s.holds[(t.k, t.dep)].runID ==> key == (t.k, t.dep)
  {
    var runID := s.holds[(t.k, t.dep)].runID;
    RecordsShowHolders(ids, s, runID, Some(t.k));
    forall key | key in s.holds && s.holds[key].runID == runID && key.0 == t.k ensures key == (t.k, t.dep) {
      OneKeyPerRun(ids, s, t.k, t.dep, key);
    }
    hide RecordPids, Held;
  }

  /** A crash takes the dead process's holds, and its records no longer count. */
  lemma CrashStep(ids: seq<string>, s: State, t: Step)
    requires t.Crash? && Held(ids, s)
    ensures Held(ids, Next(ids, s, t))
  {
    var s' := Next(ids, s, t);
    hide RecordPids;
    forall i, k | 0 <= i < |s'.entries| && 0 <= k < |ids|
      ensures RecordPids(s'.entries[i].heldBy, ids[k], s'.dead) == Owed(s', k, s'.entries[i])
    {
      assert RecordPids(s.entries[i].heldBy, ids[k], s.dead) == Owed(s, k, s.entries[i]);
      RecordsAfterCrash(s.entries[i].heldBy, ids[k], s.dead, t.pid);
    }
    assert forall key :: key in s'.holds ==> HasEntry(s.entries, key.1, s.holds[key].runID);
  }

  lemma {:induction false} RecordsAfterCrash(hs: seq<Holder>, id: string, dead: set<int>, pid: int)
    ensures RecordPids(hs, id, dead) == [] ==> RecordPids(hs, id, dead + {pid}) == []
    ensures forall p :: RecordPids(hs, id, dead) == [p] ==>
              RecordPids(hs, id, dead + {pid}) == if p == pid then [] else [p]
  {
    if hs != [] {
      RecordsAfterCrash(hs[1..], id, dead, pid);
      var rest := RecordPids(hs[1..], id, dead);
      forall p | RecordPids(hs, id, dead) == [p]
        ensures RecordPids(hs, id, dead + {pid}) == if p == pid then [] else [p]
      {
        if IsRecord(hs[0], id, dead) {
          assert RecordPids(hs, id, dead)[0] == hs[0].pid && RecordPids(hs, id, dead)[1..] == rest;
        } else {
          assert RecordPids(hs, id, dead) == rest;
        }
      }
    }
  }

  /** One step of clients with distinct holder ids keeps the records exact if and only if it is quiet. */
  lemma StepKeepsHeld(ids: seq<string>, s: State, t: Step)
    requires Distinct(ids) && Held(ids, s) && Savable(s) && Enabled(ids, s, t)
    ensures Savable(Next(ids, s, t))
    ensures Held(ids, Next(ids, s, t)) <==> Quiet(ids, s, t)
  {
    SectionsAreSaved(ids, s, t);
    match t
    case Attach(_, _, _, _, _) => AttachStep(ids, s, t);
    case Crash(_) => CrashStep(ids, s, t);
    case GatePassed(_, _) =>
    case GateFailed(_, _) => GateFailedStep(ids, s, t);
    case Detach(_, _) => DetachStep(ids, s, t);
    case Stop(_) => StopStep(ids, s, t);
    case Rebind(_, _, _) => RebindKeepsHeld(ids, s, t);
  }

  // ---- Whole runs ----------------------------------------------------------------------------

  ghost predicate IsRun(ids: seq<string>, ss: seq<State>, ts: seq<Step>) {
    && |ss| == |ts| + 1 && Start(ids, ss[0])
    && forall n :: 0 <= n < |ts| ==> Enabled(ids, ss[n], ts[n]) && ss[n + 1] == Next(ids, ss[n], ts[n])
  }

  ghost predicate QuietUpTo(ids: seq<string>, ss: seq<State>, ts: seq<Step>, n: nat)
    requires |ss| == |ts| + 1 && n <= |ts|
  {
    forall m :: 0 <= m < n ==> Quiet(ids, ss[m], ts[m])
  }

  lemma {:induction false} RunKeepsHeld(ids: seq<string>, ss: seq<State>, ts: seq<Step>, n: nat)
    requires Distinct(ids) && IsRun(ids, ss, ts) && n <= |ts| && QuietUpTo(ids, ss, ts, n)
    ensures Held(ids, ss[n]) && Savable(ss[n])
  {
    if n > 0 {
      RunKeepsHeld(ids, ss, ts, n - 1);
      StepKeepsHeld(ids, ss[n - 1], ts[n - 1]);
      assert Quiet(ids, ss[n - 1], ts[n - 1]) && ss[n - 1 + 1] == Next(ids, ss[n - 1], ts[n - 1]);
    }
  }

  /**
   * With distinct holder ids, in any interleaving: every entry holds exactly one record per client that holds it,
   * and no client is orphaned, at every moment, if and only if every step was quiet.
   */
  lemma HeldThroughoutIffQuiet(ids: seq<string>, ss: seq<State>, ts: seq<Step>)
    requires Distinct(ids) && IsRun(ids, ss, ts)
    ensures (forall n :: 0 <= n < |ss| ==> Held(ids, ss[n])) <==> QuietUpTo(ids, ss, ts, |ts|)
  {
    if QuietUpTo(ids, ss, ts, |ts|) {
      forall n | 0 <= n < |ss| ensures Held(ids, ss[n]) {
        RunKeepsHeld(ids, ss, ts, n);
      }
    } else {
      var m := FirstLoud(ids, ss, ts, |ts|);
      RunKeepsHeld(ids, ss, ts, m);
      StepKeepsHeld(ids, ss[m], ts[m]);
      assert !Held(ids, ss[m + 1]);
    }
  }

  lemma {:induction false} FirstLoud(ids: seq<string>, ss: seq<State>, ts: seq<Step>, n: nat) returns (m: nat)
    requires |ss| == |ts| + 1 && n <= |ts| && !QuietUpTo(ids, ss, ts, n)
    ensures m < n && !Quiet(ids, ss[m], ts[m]) && QuietUpTo(ids, ss, ts, m)
  {
    if QuietUpTo(ids, ss, ts, n - 1) {
      m := n - 1;
    } else {
      m := FirstLoud(ids, ss, ts, n - 1);
    }
  }

  // ---- What a detach decides, and what nobody touches ----------------------------------------

  /**
   * A detach decides to stop exactly when it finds its own record, no other client holds the run, and the run has no
   * foreign record and none of a client that died.
   */
  lemma DetachStopsIffLast(ids: seq<string>, s: State, k: nat, dep: string)
    requires Distinct(ids) && Held(ids, s) && Savable(s) && Enabled(ids, s, Detach(k, dep))
    ensures var hold := s.holds[(k, dep)];
            DetachStops(s.entries, hold.runID, SensorHolder(ids[k], hold.own)) <==>
            && hold.pid == hold.own
            && (forall key :: key in s.holds && s.holds[key].runID == hold.runID ==> key == (k, dep))
            && forall e :: e in s.entries && e.runID == hold.runID ==> OnlyLiveClients(e.heldBy, ids, s.dead)
  {
    var hold := s.holds[(k, dep)];
    var i := HeldIndex(ids, s, k, dep);
    hide *;
    if hold.pid != hold.own {
      MissedDetach(s, i, ids[k], hold);
    } else {
      FoundDetach(ids, s, k, dep, i);
    }
  }

  lemma MissedDetach(s: State, i: nat, id: string, hold: Hold)
    requires FirstIndex(s.entries, WithRun(hold.runID)) == Some(i) && i < |s.entries|
    requires RecordPids(s.entries[i].heldBy, id, s.dead) == [hold.pid] && hold.pid != hold.own && hold.own !in s.dead
    ensures !DetachStops(s.entries, hold.runID, SensorHolder(id, hold.own))
  {
    var hs := s.entries[i].heldBy;
    NothingMatches(hs, id, hold.own, 0, s.dead);
    assert hs != [];
  }

  lemma FoundDetach(ids: seq<string>, s: State, k: nat, dep: string, i: nat)
    requires Distinct(ids) && Held(ids, s) && k < |ids| && (k, dep) in s.holds && i < |s.entries|
    requires s.entries[i].sensorID == dep && s.entries[i].runID == s.holds[(k, dep)].runID
    requires FirstIndex(s.entries, WithRun(s.holds[(k, dep)].runID)) == Some(i)
    requires RecordPids(s.entries[i].heldBy, ids[k], s.dead) == [s.holds[(k, dep)].pid]
    ensures var hold := s.holds[(k, dep)];
            DetachStops(s.entries, hold.runID, SensorHolder(ids[k], hold.pid)) <==>
            && (forall key :: key in s.holds && s.holds[key].runID == hold.runID ==> key == (k, dep))
            && forall e :: e in s.entries && e.runID == hold.runID ==> OnlyLiveClients(e.heldBy, ids, s.dead)
  {
    var hold, hs := s.holds[(k, dep)], s.entries[i].heldBy;
    var left := RemoveMatch(hs, SensorHolder(ids[k], hold.pid));
    EmptyIffNoRecords(left, ids, s.dead);
    RecordedIsLive(hs, ids[k], s.dead);
    assert [hold.pid][0] == hold.pid;
    OnlyLiveAfterRemoval(hs, ids[k], hold.pid, ids, s.dead);
    LeftAfterDetach(ids, hs, k, hold.pid, s.dead);
    RecordsShowHolders(ids, s, hold.runID, Some(k));
    forall key | key in s.holds && s.holds[key].runID == hold.runID && key.0 == k ensures key == (k, dep) {
      OneKeyPerRun(ids, s, k, dep, key);
    }
    OnlyEntryOfRun(s.entries, i);
    RecordsAt(ids, s, i, hold.runID, k);
    hide *;
  }

  /** Were the stop part of the detach that decides it, no removal could disturb anyone. */
  lemma PromptStopIsQuiet(ids: seq<string>, s: State, k: nat, dep: string)
    requires Distinct(ids) && Held(ids, s) && Savable(s) && Enabled(ids, s, Detach(k, dep))
    requires DetachStops(s.entries, s.holds[(k, dep)].runID, SensorHolder(ids[k], s.holds[(k, dep)].own))
    ensures var s1, stop := Next(ids, s, Detach(k, dep)), Stop(s.holds[(k, dep)].runID);
            Enabled(ids, s1, stop) && Quiet(ids, s1, stop) && Held(ids, Next(ids, s1, stop))
  {
    assert k < |ids| && (k, dep) in s.holds;
    hide *;
    var runID, s1 := s.holds[(k, dep)].runID, Next(ids, s, Detach(k, dep));
    DetachStopsIffLast(ids, s, k, dep);
    DetachIsQuiet(ids, s, k, dep);
    StepKeepsHeld(ids, s, Detach(k, dep));
    RecordsShowHolders(ids, s1, runID, None);
    NobodyHolds(ids, s, k, dep);
    StepKeepsHeld(ids, s1, Stop(runID));
  }

  lemma DetachIsQuiet(ids: seq<string>, s: State, k: nat, dep: string)
    requires (k, dep) in s.holds && s.holds[(k, dep)].pid == s.holds[(k, dep)].own
    ensures Quiet(ids, s, Detach(k, dep))
  {}

  lemma NobodyHolds(ids: seq<string>, s: State, k: nat, dep: string)
    requires k < |ids| && (k, dep) in s.holds
    requires DetachStops(s.entries, s.holds[(k, dep)].runID, SensorHolder(ids[k], s.holds[(k, dep)].own))
    requires forall key :: key in s.holds && s.holds[key].runID == s.holds[(k, dep)].runID ==> key == (k, dep)
    ensures var s1, runID := Next(ids, s, Detach(k, dep)), s.holds[(k, dep)].runID;
            && Enabled(ids, s1, Stop(runID)) && (forall key :: key in s1.holds ==> s1.holds[key].runID != runID)
            && (Quiet(ids, s1, Stop(runID)) <==>
                forall i, m ::
                  0 <= i < |s1.entries| && 0 <= m < |ids| && s1.entries[i].runID == runID ==>
                  RecordPids(s1.entries[i].heldBy, ids[m], s1.dead) == [])
  {
    hide RecordPids, DetachFrom, Saved, DetachStops;
  }

  lemma OnlyEntryOfRun(es: seq<Entry>, i: nat)
    requires RunsDistinct(es) && i < |es|
    ensures forall e :: e in es && e.runID == es[i].runID <==> e == es[i]
  {
    assert es[i] in es;
  }

  /** Records of the other clients over all entries of a run come down to the run's one entry. */
  lemma RecordsAt(ids: seq<string>, s: State, i: nat, runID: string, but: nat)
    requires RunsDistinct(s.entries) && i < |s.entries| && s.entries[i].runID == runID
    ensures (forall j, k ::
               0 <= j < |s.entries| && 0 <= k < |ids| && Some(but) != Some(k) && s.entries[j].runID == runID ==>
               RecordPids(s.entries[j].heldBy, ids[k], s.dead) == [])
            <==> forall k :: 0 <= k < |ids| && k != but ==> RecordPids(s.entries[i].heldBy, ids[k], s.dead) == []
  {
    hide RecordPids;
    assert forall j :: 0 <= j < |s.entries| && s.entries[j].runID == runID ==> j == i;
  }

  lemma LeftAfterDetach(ids: seq<string>, hs: seq<Holder>, k: nat, pid: int, dead: set<int>)
    requires Distinct(ids) && k < |ids| && RecordPids(hs, ids[k], dead) == [pid]
    ensures forall m :: 0 <= m < |ids| ==>
              RecordPids(RemoveMatch(hs, SensorHolder(ids[k], pid)), ids[m], dead) ==
              if m == k then [] else RecordPids(hs, ids[m], dead)
  {
    forall m | 0 <= m < |ids|
      ensures RecordPids(RemoveMatch(hs, SensorHolder(ids[k], pid)), ids[m], dead) ==
              if m == k then [] else RecordPids(hs, ids[m], dead)
    {
      RemoveMatchRecords(hs, ids[k], pid, ids[m], dead);
      assert m != k ==> ids[m] != ids[k];
    }
  }

  // ---- Foreign records -------------------------------------------------------------------------

  /** Index by index, the entries keep their run ids and foreign records; only new ones may follow, without any. */
  ghost predicate ForeignKept(ids: seq<string>, es: seq<Entry>, es': seq<Entry>) {
    && |es| <= |es'|
    && (forall i :: 0 <= i < |es| ==>
          es'[i].runID == es[i].runID && Foreign(es'[i].heldBy, ids) == Foreign(es[i].heldBy, ids))
    && forall i :: |es| <= i < |es'| ==> Foreign(es'[i].heldBy, ids) == []
  }

  /** No step other than a removal touches a foreign record, whatever else the registry says. */
  lemma ForeignUntouched(ids: seq<string>, s: State, t: Step)
    requires Savable(s) && Enabled(ids, s, t) && !t.Stop? && !t.GateFailed?
    ensures ForeignKept(ids, s.entries, Next(ids, s, t).entries)
  {
    SectionsAreSaved(ids, s, t);
    hide Savable;
    match t
    case Attach(k, dep, pid, alive, sp) =>
      var h := SensorHolder(ids[k], pid);
      OneForeign(h, ids);
      var i := FirstIndex(s.entries, BlockingFor(dep));
      if i.Some? { RejoinForeign(s.entries[i.value].heldBy, alive, h, ids); }
      hide Foreign, Rejoin;
    case Detach(k, dep) =>
      var i := FirstIndex(s.entries, WithRun(s.holds[(k, dep)].runID));
      if i.Some? { OwnChangesKeepForeign(s.entries[i.value].heldBy, ids[k], s.holds[(k, dep)].own, 0, ids); }
      hide Foreign, RemoveMatch;
    case Rebind(k, dep, newPid) =>
      var i := FirstIndex(s.entries, BlockingFor(dep));
      if i.Some? { OwnChangesKeepForeign(s.entries[i.value].heldBy, ids[k], s.holds[(k, dep)].own, newPid, ids); }
      hide Foreign, Repid;
    case _ =>
  }

  /** A run whose removal is decided, or may still be decided by a health gate. */
  ghost predicate Doomed(s: State, runID: string) {
    runID in s.stopping || exists key :: key in s.gating && key in s.holds && s.holds[key].runID == runID
  }

  /** No doomed run has a foreign record. */
  ghost predicate DoomedAreBare(ids: seq<string>, s: State) {
    && RunsDistinct(s.entries) && s.gating <= s.holds.Keys
    && forall e :: e in s.entries && Doomed(s, e.runID) ==> Foreign(e.heldBy, ids) == []
  }

  lemma StepKeepsBare(ids: seq<string>, s: State, t: Step)
    requires DoomedAreBare(ids, s) && Savable(s) && Enabled(ids, s, t)
    ensures DoomedAreBare(ids, Next(ids, s, t))
  {
    SectionsAreSaved(ids, s, t);
    hide Savable, Foreign;
    match t
    case Stop(runID) => RemoveRunKeeps(s.entries, runID);
    case GateFailed(k, dep) => RemoveRunKeeps(s.entries, s.holds[(k, dep)].runID);
    case Attach(_, _, _, _, _) => AttachKeepsBare(ids, s, t);
    case Detach(_, _) => DetachKeepsBare(ids, s, t);
    case Rebind(_, _, _) => RebindKeepsBare(ids, s, t);
    case _ =>
  }

  /** Entries that correspond index by index are equally distinct and bare. */
  lemma KeptAreBare(ids: seq<string>, s: State, s': State)
    requires DoomedAreBare(ids, s) && ForeignKept(ids, s.entries, s'.entries) && s'.gating <= s'.holds.Keys
    requires |s'.entries| == |s.entries|
    requires forall e :: e in s'.entries && Doomed(s', e.runID) ==> Doomed(s, e.runID) || Foreign(e.heldBy, ids) == []
    ensures DoomedAreBare(ids, s')
  {
    hide Foreign, Doomed;
    forall i | 0 <= i < |s'.entries| && Doomed(s', s'.entries[i].runID)
      ensures Foreign(s'.entries[i].heldBy, ids) == []
    {
      assert s'.entries[i] in s'.entries && s.entries[i] in s.entries;
    }
  }

  lemma AttachKeepsBare(ids: seq<string>, s: State, t: Step)
    requires t.Attach? && DoomedAreBare(ids, s) && Savable(s) && Enabled(ids, s, t)
    ensures DoomedAreBare(ids, Next(ids, s, t))
  {
    ForeignUntouched(ids, s, t);
    var s' := Next(ids, s, t);
    hide Savable, Foreign, Rejoin;
    assert (t.k, t.dep) !in s.gating;
    if SpawnsFresh(s.entries, t.dep, t.alive) {
      forall i | 0 <= i < |s'.entries| && Doomed(s', s'.entries[i].runID)
      ensures Foreign(s'.entries[i].heldBy, ids) == []
    {
        if i < |s.entries| {
          assert s'.entries[i] in s.entries;
        }
      }
    } else {
      KeptAreBare(ids, s, s');
    }
  }

  lemma DetachKeepsBare(ids: seq<string>, s: State, t: Step)
    requires t.Detach? && DoomedAreBare(ids, s) && Savable(s) && Enabled(ids, s, t)
    ensures DoomedAreBare(ids, Next(ids, s, t))
  {
    ForeignUntouched(ids, s, t);
    SectionsAreSaved(ids, s, t);
    var s', runID := Next(ids, s, t), s.holds[(t.k, t.dep)].runID;
    var m := SensorHolder(ids[t.k], s.holds[(t.k, t.dep)].own);
    assert Foreign([], ids) == [];
    hide Savable, Foreign, RemoveMatch;
    forall i | 0 <= i < |s'.entries| && DetachStops(s.entries, runID, m) && s'.entries[i].runID == runID
      ensures s'.entries[i].heldBy == []
    {
      FoundByRun(s.entries, i);
    }
    KeptAreBare(ids, s, s');
  }

  lemma RebindKeepsBare(ids: seq<string>, s: State, t: Step)
    requires t.Rebind? && DoomedAreBare(ids, s) && Savable(s) && Enabled(ids, s, t)
    ensures DoomedAreBare(ids, Next(ids, s, t))
  {
    ForeignUntouched(ids, s, t);
    SectionsAreSaved(ids, s, t);
    var s' := Next(ids, s, t);
    hide Savable, Foreign, Repid;
    assert forall runID :: Doomed(s', runID) ==> Doomed(s, runID);
    KeptAreBare(ids, s, s');
  }

  lemma {:induction false} BareThroughout(ids: seq<string>, ss: seq<State>, ts: seq<Step>, n: nat)
    requires IsRun(ids, ss, ts) && n < |ss|
    ensures DoomedAreBare(ids, ss[n]) && Savable(ss[n])
  {
    hide Savable, Enabled, Next;
    SavableThroughout(ids, ss, ts, n);
    if n > 0 {
      BareThroughout(ids, ss, ts, n - 1);
      assert ss[n - 1 + 1] == Next(ids, ss[n - 1], ts[n - 1]) && Enabled(ids, ss[n - 1], ts[n - 1]);
      StepKeepsBare(ids, ss[n - 1], ts[n - 1]);
    }
  }

  /** An entry with the run id and exactly these foreign records. */
  ghost predicate HasForeign(ids: seq<string>, es: seq<Entry>, runID: string, hs: seq<Holder>) {
    exists i :: 0 <= i < |es| && es[i].runID == runID && Foreign(es[i].heldBy, ids) == hs
  }

  lemma StepKeepsForeign(ids: seq<string>, s: State, t: Step, runID: string, hs: seq<Holder>)
    requires DoomedAreBare(ids, s) && Savable(s) && Enabled(ids, s, t)
    requires hs != [] && HasForeign(ids, s.entries, runID, hs)
    ensures HasForeign(ids, Next(ids, s, t).entries, runID, hs)
  {
    var s' := Next(ids, s, t);
    var i :| 0 <= i < |s.entries| && s.entries[i].runID == runID && Foreign(s.entries[i].heldBy, ids) == hs;
    assert s.entries[i] in s.entries;
    SectionsAreSaved(ids, s, t);
    hide Savable, Foreign;
    if t.Stop? || t.GateFailed? {
      var gone := if t.Stop? then t.runID else s.holds[(t.k, t.dep)].runID;
      assert Doomed(s, gone);
      RemoveRunKeeps(s.entries, gone);
      assert s.entries[i] in s'.entries;
      var j :| 0 <= j < |s'.entries| && s'.entries[j] == s.entries[i];
    } else {
      ForeignUntouched(ids, s, t);
      assert s'.entries[i].runID == runID;
    }
  }

  /** In every run, whatever the holder ids: an entry with a foreign record is never removed, and the record stays. */
  lemma {:induction false} ForeignStays(ids: seq<string>, ss: seq<State>, ts: seq<Step>, m: nat, n: nat, runID: string,
                                        hs: seq<Holder>)
    requires IsRun(ids, ss, ts) && m <= n < |ss| && hs != [] && HasForeign(ids, ss[m].entries, runID, hs)
    ensures HasForeign(ids, ss[n].entries, runID, hs)
    decreases n - m
  {
    hide HasForeign, Enabled, Next;
    if m < n {
      ForeignStays(ids, ss, ts, m, n - 1, runID, hs);
      BareThroughout(ids, ss, ts, n - 1);
      assert ss[n - 1 + 1] == Next(ids, ss[n - 1], ts[n - 1]) && Enabled(ids, ss[n - 1], ts[n - 1]);
      StepKeepsForeign(ids, ss[n - 1], ts[n - 1], runID, hs);
    }
  }

  // ---- One blocking entry per dependency -------------------------------------------------------

  ghost predicate OneBlocking(es: seq<Entry>) {
    forall i, j :: 0 <= i < j < |es| && es[i].blocking && es[j].blocking ==> es[i].sensorID != es[j].sensorID
  }

  /** An attach that spawns although the dependency still has a blocking entry, of a process that has died. */
  predicate SpawnsBehind(s: State, t: Step) {
    t.Attach? && SpawnsFresh(s.entries, t.dep, t.alive) && FirstIndex(s.entries, BlockingFor(t.dep)).Some?
  }

  lemma {:induction false} RemovalKeepsOneBlocking(es: seq<Entry>, runID: string)
    requires OneBlocking(es)
    ensures OneBlocking(RemoveRun(es, runID))
  {
    if es != [] {
      var n := |es| - 1;
      RemovalKeepsOneBlocking(es[..n], runID);
      RemoveRunKeeps(es[..n], runID);
      var shorter := RemoveRun(es[..n], runID);
      forall i | 0 <= i < |shorter| && shorter[i].blocking && es[n].blocking
        ensures shorter[i].sensorID != es[n].sensorID
      {
        var j :| 0 <= j < n && es[..n][j] == shorter[i];
        assert es[j] == shorter[i];
      }
    }
  }

  lemma StepKeepsOneBlocking(ids: seq<string>, s: State, t: Step)
    requires OneBlocking(s.entries) && Savable(s) && Enabled(ids, s, t)
    ensures Savable(Next(ids, s, t)) && (OneBlocking(Next(ids, s, t).entries) <==> !SpawnsBehind(s, t))
  {
    SectionsAreSaved(ids, s, t);
    hide Savable, Rejoin, RemoveMatch, Repid;
    match t
    case Stop(runID) => RemovalKeepsOneBlocking(s.entries, runID);
    case GateFailed(k, dep) => RemovalKeepsOneBlocking(s.entries, s.holds[(k, dep)].runID);
    case Attach(k, dep, pid, alive, sp) =>
      if SpawnsBehind(s, t) {
        var i, es := FirstIndex(s.entries, BlockingFor(dep)).value, Next(ids, s, t).entries;
        assert es[i].blocking && es[|s.entries|].blocking && es[i].sensorID == es[|s.entries|].sensorID;
      } else {
        forall i | 0 <= i < |s.entries| && SpawnsFresh(s.entries, dep, alive) ensures !BlockingFor(dep)(s.entries[i]) {}
      }
    case _ =>
  }

  /** At most one blocking entry per dependency, at every moment, if and only if every fresh spawn found none. */
  lemma OneBlockingIffNoneBehind(ids: seq<string>, ss: seq<State>, ts: seq<Step>)
    requires IsRun(ids, ss, ts) && OneBlocking(ss[0].entries)
    ensures (forall n :: 0 <= n < |ss| ==> OneBlocking(ss[n].entries)) <==> forall n :: 0 <= n < |ts| ==>
            !SpawnsBehind(ss[n], ts[n])
  {
    forall n | 0 <= n < |ss| ensures Savable(ss[n]) { SavableThroughout(ids, ss, ts, n); }
    hide Savable, OneBlocking, SpawnsBehind, Enabled, Next;
    forall n | 0 <= n < |ts| && OneBlocking(ss[n].entries) ensures OneBlocking(ss[n + 1].entries) <==>
        !SpawnsBehind(ss[n], ts[n]) {
      StepKeepsOneBlocking(ids, ss[n], ts[n]);
      assert ss[n + 1] == Next(ids, ss[n], ts[n]);
    }
    if forall n :: 0 <= n < |ts| ==> !SpawnsBehind(ss[n], ts[n]) {
      forall n | 0 <= n < |ss| ensures OneBlocking(ss[n].entries) { OneBlockingUpTo(ss, ts, n); }
    } else {
      var n :| 0 <= n < |ts| && SpawnsBehind(ss[n], ts[n]);
      assert OneBlocking(ss[n].entries) ==> !OneBlocking(ss[n + 1].entries);
    }
  }

  lemma {:induction false} OneBlockingUpTo(ss: seq<State>, ts: seq<Step>, n: nat)
    requires |ss| == |ts| + 1 && n < |ss| && OneBlocking(ss[0].entries)
    requires forall m :: 0 <= m < |ts| && OneBlocking(ss[m].entries) ==> OneBlocking(ss[m + 1].entries)
    ensures OneBlocking(ss[n].entries)
  {
    if n > 0 {
      OneBlockingUpTo(ss, ts, n - 1);
      assert OneBlocking(ss[n - 1 + 1].entries);
    }
  }

  lemma {:induction false} SavableThroughout(ids: seq<string>, ss: seq<State>, ts: seq<Step>, n: nat)
    requires IsRun(ids, ss, ts) && n < |ss|
    ensures Savable(ss[n])
  {
    if n > 0 {
      SavableThroughout(ids, ss, ts, n - 1);
      SectionsAreSaved(ids, ss[n - 1], ts[n - 1]);
      assert ss[n - 1 + 1] == Next(ids, ss[n - 1], ts[n - 1]);
    }
  }
}
