/** The lock sections over the registry file: attach, detach, rebind and remove, each one atomic step. */
module LiveDeps {
  import opened Options
  import opened Holders
  import opened Registry
  import opened Picks

  /** What spawning a blocking dependency would yield. */
  datatype Spawn = Spawn(runID: string, pid: int, pgid: int, watcherPID: int)

  /**
   * How the spawn of a section can go: it comes up, its requirements fail before anything is started, or starting
   * fails.
   */
  datatype SpawnTry = ComesUp(spawn: Spawn) | RequirementsFail | StartFails

  /** What an attach section reports. */
  datatype AttachReport = Joined(runID: string) | Spawned(runID: string) | Gated | Refused

  function SensorHolder(id: string, pid: int): Holder {
    Holder("sensor", id, pid, "")
  }

  // ---- The sections as functions of the entries ----------------------------------------------

  function FirstIndex(es: seq<Entry>, p: Entry -> bool): (r: Option<nat>)
    ensures r.None? ==> forall i :: 0 <= i < |es| ==> !p(es[i])
    ensures r.Some? ==> r.value < |es| && p(es[r.value]) && forall i :: 0 <= i < r.value ==> !p(es[i])
  {
    if es == [] then None
    else if p(es[0]) then Some(0)
    else match FirstIndex(es[1..], p) case None => None case Some(k) => Some(k + 1)
  }

  function BlockingFor(dep: string): Entry -> bool {
    (e: Entry) => e.sensorID == dep && e.blocking
  }

  function WithRun(runID: string): Entry -> bool {
    (e: Entry) => e.runID == runID
  }

  predicate AllOk(es: seq<Entry>) {
    forall i :: 0 <= i < |es| ==> EntryOk(es[i])
  }

  predicate AnyLive(hs: seq<Holder>, alive: int -> bool, id: string) {
    exists i :: 0 <= i < |hs| && SameIDLive(alive, id, hs[i])
  }

  /** Holders after a re-attach: same-id records of dead processes go, and a live one is not doubled. */
  function Rejoin(hs: seq<Holder>, alive: int -> bool, h: Holder): seq<Holder> {
    var kept := Select(hs, NotSameIDDead(alive, h.id));
    if AnyLive(kept, alive, h.id) then kept else kept + [h]
  }

  function AttachTo(es: seq<Entry>, dep: string, h: Holder, alive: int -> bool, sp: Spawn): seq<Entry> {
    match FirstIndex(es, BlockingFor(dep))
    case Some(k) =>
      if alive(es[k].pid) then es[k := es[k].(heldBy := Rejoin(es[k].heldBy, alive, h))]
      else es + [Entry(dep, sp.runID, true, sp.pid, sp.pgid, sp.watcherPID, [h])]
    case None => es + [Entry(dep, sp.runID, true, sp.pid, sp.pgid, sp.watcherPID, [h])]
  }

  /** The run an attach ends up holding: the live entry found first, or the one just spawned. */
  function AttachedRun(es: seq<Entry>, dep: string, alive: int -> bool, sp: Spawn): string {
    match FirstIndex(es, BlockingFor(dep))
    case Some(k) => if alive(es[k].pid) then es[k].runID else sp.runID
    case None => sp.runID
  }

  predicate SpawnsFresh(es: seq<Entry>, dep: string, alive: int -> bool) {
    match FirstIndex(es, BlockingFor(dep))
    case Some(k) => !alive(es[k].pid)
    case None => true
  }

  function RemoveMatch(hs: seq<Holder>, m: Holder): seq<Holder> {
    if hs == [] then []
    else if HoldersMatch(hs[0], m) then hs[1..]
    else [hs[0]] + RemoveMatch(hs[1..], m)
  }

  function DetachFrom(es: seq<Entry>, runID: string, m: Holder): seq<Entry> {
    match FirstIndex(es, WithRun(runID))
    case Some(k) => es[k := es[k].(heldBy := RemoveMatch(es[k].heldBy, m))]
    case None => es
  }

  /** A detach decides to stop when the entry it found is left with no record at all. */
  predicate DetachStops(es: seq<Entry>, runID: string, m: Holder) {
    match FirstIndex(es, WithRun(runID))
    case Some(k) => RemoveMatch(es[k].heldBy, m) == []
    case None => false
  }

  function RemoveRun(es: seq<Entry>, runID: string): seq<Entry> {
    if es == [] then []
    else RemoveRun(es[..|es| - 1], runID) + if es[|es| - 1].runID == runID then [] else [es[|es| - 1]]
  }

  function Repid(hs: seq<Holder>, m: Holder, newPid: int): seq<Holder> {
    if hs == [] then []
    else if HoldersMatch(hs[0], m) then [hs[0].(pid := newPid)] + hs[1..]
    else [hs[0]] + Repid(hs[1..], m, newPid)
  }

  function RebindIn(es: seq<Entry>, dep: string, m: Holder, newPid: int): seq<Entry> {
    match FirstIndex(es, BlockingFor(dep))
    case Some(k) => es[k := es[k].(heldBy := Repid(es[k].heldBy, m, newPid))]
    case None => es
  }

  lemma {:induction false} RemoveMatchIsFirst(hs: seq<Holder>, m: Holder)
    ensures FirstMatchRemoved(hs, m, RemoveMatch(hs, m), exists i :: 0 <= i < |hs| && HoldersMatch(hs[i], m))
  {
    hide HoldersMatch;
    if hs == [] {
    } else if HoldersMatch(hs[0], m) {
      assert IsFirstMatch(hs, m, 0);
    } else {
      RemoveMatchIsFirst(hs[1..], m);
      assert forall j :: 1 <= j < |hs| ==> hs[j] == hs[1..][j - 1];
      if i :| 0 <= i < |hs| && HoldersMatch(hs[i], m) {
        assert HoldersMatch(hs[1..][i - 1], m);
        var j: nat :| IsFirstMatch(hs[1..], m, j) && RemoveMatch(hs[1..], m) == hs[1..][..j] + hs[1..][j + 1..];
        FirstMatchLater(hs, m, j);
      } else {
        assert forall j :: 0 <= j < |hs[1..]| ==> !HoldersMatch(hs[1..][j], m);
      }
    }
  }

  lemma FirstMatchLater(hs: seq<Holder>, m: Holder, j: nat)
    requires hs != [] && !HoldersMatch(hs[0], m) && IsFirstMatch(hs[1..], m, j)
    ensures IsFirstMatch(hs, m, j + 1) && [hs[0]] + (hs[1..][..j] + hs[1..][j + 1..]) == hs[..j + 1] + hs[j + 2..]
  {
    hide HoldersMatch;
    assert forall i :: 1 <= i < |hs| ==> hs[i] == hs[1..][i - 1];
  }

  // ---- What each section changes and what it leaves -------------------------------------------

  ghost predicate IsFirstBlocking(es: seq<Entry>, dep: string, k: int) {
    && 0 <= k < |es| && es[k].sensorID == dep && es[k].blocking
    && forall j :: 0 <= j < k ==> !(es[j].sensorID == dep && es[j].blocking)
  }

  ghost predicate IsFirstOfRun(es: seq<Entry>, runID: string, k: int) {
    0 <= k < |es| && es[k].runID == runID && forall j :: 0 <= j < k ==> es[j].runID != runID
  }

  /** The same entries in the same order, with nothing but their hold records changed. */
  ghost predicate OnlyHolders(es: seq<Entry>, es': seq<Entry>) {
    |es| == |es'| && forall i :: 0 <= i < |es| ==> es'[i] == es[i].(heldBy := es'[i].heldBy)
  }

  /** There is a first blocking entry and its process is alive. */
  ghost predicate CanJoin(es: seq<Entry>, dep: string, alive: int -> bool) {
    exists k :: IsFirstBlocking(es, dep, k) && alive(es[k].pid)
  }

  /**
   * An attach changes the records of the first blocking entry alone if its process is alive; otherwise it appends the
   * spawned process as a blocking entry that the client holds, and leaves the others as they are.
   */
  lemma AttachChanges(es: seq<Entry>, dep: string, h: Holder, alive: int -> bool, sp: Spawn)
    ensures SpawnsFresh(es, dep, alive) <==> !CanJoin(es, dep, alive)
    ensures var es' := AttachTo(es, dep, h, alive, sp);
            if CanJoin(es, dep, alive) then
              && OnlyHolders(es, es')
              && exists k :: IsFirstBlocking(es, dep, k) && es[k].runID == AttachedRun(es, dep, alive, sp) &&
                   JoinedAt(es, k, h, alive, es')
            else
              && AttachedRun(es, dep, alive, sp) == sp.runID
              && es' == es + [Entry(dep, sp.runID, true, sp.pid, sp.pgid, sp.watcherPID, [h])]
  {
    FirstBlockingIs(es, dep);
    var k := FirstIndex(es, BlockingFor(dep));
    hide FirstIndex, IsFirstBlocking;
    if k.Some? && alive(es[k.value].pid) {
      JoinChanges(es, k.value, h, alive);
      hide JoinedAt, OnlyHolders, Rejoin;
      var hs := Rejoin(es[k.value].heldBy, alive, h);
      assert AttachTo(es, dep, h, alive, sp) == es[k.value := es[k.value].(heldBy := hs)];
    }
  }

  /** The records of the entry at `k` are rejoined and nothing else is changed. */
  ghost predicate JoinedAt(es: seq<Entry>, k: int, h: Holder, alive: int -> bool, es': seq<Entry>) {
    && 0 <= k < |es| && |es'| == |es| && es'[..k] == es[..k] && es'[k + 1..] == es[k + 1..]
    && IsRejoined(es[k].heldBy, alive, h, es'[k].heldBy)
  }

  lemma JoinChanges(es: seq<Entry>, k: nat, h: Holder, alive: int -> bool)
    requires k < |es|
    ensures var es' := es[k := es[k].(heldBy := Rejoin(es[k].heldBy, alive, h))];
            OnlyHolders(es, es') && JoinedAt(es, k, h, alive, es')
  {
    RejoinIs(es[k].heldBy, alive, h);
    hide Rejoin, IsRejoined;
  }

  lemma FirstBlockingIs(es: seq<Entry>, dep: string)
    ensures forall k :: IsFirstBlocking(es, dep, k) <==> FirstIndex(es, BlockingFor(dep)) == Some(k)
  {
    var k := FirstIndex(es, BlockingFor(dep));
    if k.Some? {
      assert IsFirstBlocking(es, dep, k.value);
      assert forall j :: IsFirstBlocking(es, dep, j) ==> j == k.value;
    } else {
      assert forall i :: 0 <= i < |es| ==> !BlockingFor(dep)(es[i]);
    }
  }

  /** All records but those of dead processes under the id. */
  function NotStale(alive: int -> bool, id: string): Holder -> bool {
    (h: Holder) => h.kind == "sensor" && h.id == id ==> alive(h.pid)
  }

  /** All records that are not stale, in order, and the new one behind them unless a live one is under the id. */
  ghost predicate IsRejoined(hs: seq<Holder>, alive: int -> bool, h: Holder, hs': seq<Holder>) {
    exists idx: seq<nat> :: PicksOut(idx, hs, NotStale(alive, h.id)) && ListsThen(hs, idx, hs') &&
      hs'[|idx|..] == if exists x :: x in hs && x.kind == "sensor" && x.id == h.id && alive(x.pid) then [] else [h]
  }

  ghost predicate ListsThen<T>(xs: seq<T>, idx: seq<nat>, ys: seq<T>) {
    |idx| <= |ys| && forall k :: 0 <= k < |idx| ==> idx[k] < |xs| && ys[k] == xs[idx[k]]
  }

  lemma RejoinIs(hs: seq<Holder>, alive: int -> bool, h: Holder)
    ensures IsRejoined(hs, alive, h, Rejoin(hs, alive, h))
  {
    var kept := Select(hs, NotSameIDDead(alive, h.id));
    var idx := SelectIsOrdered(hs, NotSameIDDead(alive, h.id));
    assert PicksOut(idx, hs, NotStale(alive, h.id));
    LiveIsKept(hs, alive, h.id);
    hide Select, PicksOut, AnyLive;
    var hs' := Rejoin(hs, alive, h);
    assert ListsThen(hs, idx, hs') && hs'[|idx|..] == if AnyLive(kept, alive, h.id) then [] else [h];
  }

  lemma LiveIsKept(hs: seq<Holder>, alive: int -> bool, id: string)
    ensures AnyLive(Select(hs, NotSameIDDead(alive, id)), alive, id) <==>
            exists x :: x in hs && x.kind == "sensor" && x.id == id && alive(x.pid)
  {
    var kept := Select(hs, NotSameIDDead(alive, id));
    forall x | SameIDLive(alive, id, x) ensures x in kept <==> x in hs {
      SelectKeepsCount(hs, NotSameIDDead(alive, id), x);
      assert x in kept <==> multiset(kept)[x] > 0;
      assert x in hs <==> multiset(hs)[x] > 0;
    }
    hide Select;
    if AnyLive(kept, alive, id) {
      var i :| 0 <= i < |kept| && SameIDLive(alive, id, kept[i]);
      assert kept[i] in hs;
    }
    if x :| x in hs && x.kind == "sensor" && x.id == id && alive(x.pid) {
      assert SameIDLive(alive, id, x);
      var i :| 0 <= i < |kept| && kept[i] == x;
      assert SameIDLive(alive, id, kept[i]);
    }
  }

  ghost predicate IsFirstSame(hs: seq<Holder>, m: Holder, i: int) {
    0 <= i < |hs| && SameHold(hs[i], m) && forall j :: 0 <= j < i ==> !SameHold(hs[j], m)
  }

  /** The first record of the same process is gone, or there was none. */
  ghost predicate LosesFirst(hs: seq<Holder>, m: Holder, hs': seq<Holder>) {
    || (exists i :: IsFirstSame(hs, m, i) && hs' == hs[..i] + hs[i + 1..])
    || (hs' == hs && forall i :: 0 <= i < |hs| ==> !SameHold(hs[i], m))
  }

  /** The first record of the same process has the new pid, or there was none. */
  ghost predicate ChangesFirst(hs: seq<Holder>, m: Holder, newPid: int, hs': seq<Holder>) {
    || (exists i :: IsFirstSame(hs, m, i) && hs' == hs[i := hs[i].(pid := newPid)])
    || (hs' == hs && forall i :: 0 <= i < |hs| ==> !SameHold(hs[i], m))
  }

  lemma RemoveMatchLoses(hs: seq<Holder>, m: Holder)
    ensures LosesFirst(hs, m, RemoveMatch(hs, m))
  {
    RemoveMatchIsFirst(hs, m);
    hide RemoveMatch;
    if i: nat :| IsFirstMatch(hs, m, i) && RemoveMatch(hs, m) == hs[..i] + hs[i + 1..] {
      assert IsFirstSame(hs, m, i);
    }
  }

  lemma {:induction false} RepidChanges(hs: seq<Holder>, m: Holder, newPid: int)
    ensures ChangesFirst(hs, m, newPid, Repid(hs, m, newPid))
  {
    if hs == [] {
    } else if SameHold(hs[0], m) {
      assert IsFirstSame(hs, m, 0);
    } else {
      RepidChanges(hs[1..], m, newPid);
      ChangesLater(hs, m, newPid, Repid(hs[1..], m, newPid));
      hide ChangesFirst;
    }
  }

  lemma ChangesLater(hs: seq<Holder>, m: Holder, newPid: int, rest': seq<Holder>)
    requires hs != [] && !SameHold(hs[0], m) && ChangesFirst(hs[1..], m, newPid, rest')
    ensures ChangesFirst(hs, m, newPid, [hs[0]] + rest')
  {
    hide SameHold;
    var rest := hs[1..];
    assert hs == [hs[0]] + rest;
    if i :| IsFirstSame(rest, m, i) && rest' == rest[i := rest[i].(pid := newPid)] {
      assert [hs[0]] + rest' == hs[i + 1 := hs[i + 1].(pid := newPid)];
      assert IsFirstSame(hs, m, i + 1);
    }
  }

  /** A detach deletes one record of the first entry of the run, and decides to stop when that was the last. */
  lemma DetachChanges(es: seq<Entry>, runID: string, m: Holder)
    ensures var es' := DetachFrom(es, runID, m);
            && OnlyHolders(es, es')
            && (forall k :: IsFirstOfRun(es, runID, k) ==>
                  && es'[..k] == es[..k] && es'[k + 1..] == es[k + 1..]
                  && LosesFirst(es[k].heldBy, m, es'[k].heldBy)
                  && (DetachStops(es, runID, m) <==> es'[k].heldBy == []))
            && ((forall k :: !IsFirstOfRun(es, runID, k)) ==> es' == es && !DetachStops(es, runID, m))
  {
    var k := FirstIndex(es, WithRun(runID));
    if k.Some? {
      RemoveMatchLoses(es[k.value].heldBy, m);
      hide RemoveMatch, LosesFirst;
      assert IsFirstOfRun(es, runID, k.value);
      assert forall j :: IsFirstOfRun(es, runID, j) ==> j == k.value;
    }
  }

  function OtherRun(runID: string): Entry -> bool {
    (e: Entry) => e.runID != runID
  }

  /** A removal drops exactly the entries of the run and leaves the others as they are, in order. */
  lemma {:induction false} RemovalChanges(es: seq<Entry>, runID: string) returns (idx: seq<nat>)
    ensures PicksOut(idx, es, OtherRun(runID)) && |RemoveRun(es, runID)| == |idx|
    ensures forall k :: 0 <= k < |idx| ==> RemoveRun(es, runID)[k] == es[idx[k]]
  {
    idx := [];
    if es != [] {
      var before := RemovalChanges(es[..|es| - 1], runID);
      PicksLast(before, es, OtherRun(runID));
      idx := PickLast(before, es, OtherRun(runID));
      hide PicksOut;
    }
  }

  /** A rebind changes the pid of one record of the first blocking entry. */
  lemma RebindChanges(es: seq<Entry>, dep: string, m: Holder, newPid: int)
    ensures var es' := RebindIn(es, dep, m, newPid);
            && OnlyHolders(es, es')
            && (forall k :: IsFirstBlocking(es, dep, k) ==>
                  && es'[..k] == es[..k] && es'[k + 1..] == es[k + 1..]
                  && ChangesFirst(es[k].heldBy, m, newPid, es'[k].heldBy))
            && ((forall k :: !IsFirstBlocking(es, dep, k)) ==> es' == es)
  {
    var k := FirstIndex(es, BlockingFor(dep));
    if k.Some? {
      RepidChanges(es[k.value].heldBy, m, newPid);
      hide Repid, ChangesFirst;
      assert IsFirstBlocking(es, dep, k.value);
      assert forall j :: IsFirstBlocking(es, dep, j) ==> j == k.value;
    }
  }

  // ---- The sections as code ------------------------------------------------------------------

  /** running_sensors.json between two holders of the file lock. */
  class RegistryFile {
    var entries: seq<Entry>

    /** Write `rs` unless an entry is invalid. */
    method SaveEntries(rs: seq<Entry>) returns (ok: bool)
      modifies this
      ensures ok <==> AllOk(rs)
      ensures entries == if ok then rs else old(entries)
    {
      var file;
      file, ok := Save(rs, entries);
      entries := file;
      assert AllOk(rs) <==> forall e :: e in rs ==> EntryOk(e);
    }

    method FindBlockingEntry(rs: seq<Entry>, dep: string) returns (k: Option<nat>)
      ensures k == FirstIndex(rs, BlockingFor(dep))
      ensures if k.Some? then IsFirstBlocking(rs, dep, k.value) else forall i :: 0 <= i < |rs| ==>
                !(rs[i].sensorID == dep && rs[i].blocking)
    {
      for i := 0 to |rs|
        invariant forall j :: 0 <= j < i ==> !BlockingFor(dep)(rs[j])
      {
        if rs[i].sensorID == dep && rs[i].blocking {
          return Some(i);
        }
      }
      return None;
    }

    method FindEntryByRunID(rs: seq<Entry>, runID: string) returns (k: Option<nat>)
      ensures k == FirstIndex(rs, WithRun(runID))
      ensures if k.Some? then IsFirstOfRun(rs, runID, k.value) else forall i :: 0 <= i < |rs| ==> rs[i].runID != runID
    {
      for i := 0 to |rs|
        invariant forall j :: 0 <= j < i ==> !WithRun(runID)(rs[j])
      {
        if rs[i].runID == runID {
          return Some(i);
        }
      }
      return None;
    }

    /** Load the holders of one entry, apply `op`'s in-place edit, and read them back. */
    method RejoinHolders(hs: seq<Holder>, alive: int -> bool, h: Holder) returns (hs': seq<Holder>)
      requires h.kind == "sensor"
      ensures hs' == Rejoin(hs, alive, h)
    {
      var arr := new Holder[|hs|](i requires 0 <= i < |hs| => hs[i]);
      var s := Slice(arr, |hs|);
      assert View(s) == hs;
      s := ReapDeadSameIDHolders(s, alive, h.id);
      ghost var kept := View(s);
      var live := HasLiveSameIDHolder(s, alive, h.id);
      assert live <==> AnyLive(kept, alive, h.id);
      if !live {
        s := AddHolder(s, h);
      }
      hs' := s.arr[..s.len];
    }

    /**
     * The section of an attach. A live process is joined; otherwise one is spawned, and when that does not come
     * about the file stays as it is.
     */
    method Attach(dep: string, holderID: string, holderPID: int, alive: int -> bool, attempt: SpawnTry)
      returns (r: AttachReport)
      modifies this
      ensures SpawnsFresh(old(entries), dep, alive) && !attempt.ComesUp? ==>
                entries == old(entries) && r == if attempt.RequirementsFail? then Gated else Refused
      ensures !SpawnsFresh(old(entries), dep, alive) || attempt.ComesUp? ==>
                var sp := if attempt.ComesUp? then attempt.spawn else Spawn("", 0, 0, 0);
                var rs := AttachTo(old(entries), dep, SensorHolder(holderID, holderPID), alive, sp);
                var runID := AttachedRun(old(entries), dep, alive, sp);
                && entries == (if AllOk(rs) then rs else old(entries))
                && r == if !AllOk(rs) then Refused else if SpawnsFresh(old(entries), dep, alive) then Spawned(runID)
                   else Joined(runID)
    {
      var rs := entries;
      var holder := SensorHolder(holderID, holderPID);
      var existing := FindBlockingEntry(rs, dep);
      if existing.Some? && alive(rs[existing.value].pid) {
        var k := existing.value;
        var hs := RejoinHolders(rs[k].heldBy, alive, holder);
        var joined := SaveEntries(rs[k := rs[k].(heldBy := hs)]);
        return if joined then Joined(rs[k].runID) else Refused;
      }
      if attempt.RequirementsFail? {
        return Gated;
      }
      if attempt.StartFails? {
        return Refused;
      }
      var sp := attempt.spawn;
      var saved := SaveEntries(rs + [Entry(dep, sp.runID, true, sp.pid, sp.pgid, sp.watcherPID, [holder])]);
      r := if saved then Spawned(sp.runID) else Refused;
    }

    /** The section of a detach. The decision to stop does not wait for the save. */
    method Detach(runID: string, holderID: string, pid: int) returns (found: bool, stopNow: bool)
      modifies this
      ensures var m := SensorHolder(holderID, pid);
              var rs := DetachFrom(old(entries), runID, m);
              && (found <==> FirstIndex(old(entries), WithRun(runID)).Some?)
              && (stopNow <==> DetachStops(old(entries), runID, m))
              && entries == if AllOk(rs) then rs else old(entries)
      ensures OnlyHolders(old(entries), entries)
    {
      var rs := entries;
      var existing := FindEntryByRunID(rs, runID);
      if existing.None? {
        return false, false;
      }
      var k := existing.value;
      var hs := RemoveFirst(rs[k].heldBy, SensorHolder(holderID, pid));
      found, stopNow := true, |hs| == 0;
      var ok := SaveEntries(rs[k := rs[k].(heldBy := hs)]);
    }

    method RemoveFirst(hs: seq<Holder>, m: Holder) returns (hs': seq<Holder>)
      ensures hs' == RemoveMatch(hs, m)
    {
      var arr := new Holder[|hs|](i requires 0 <= i < |hs| => hs[i]);
      var s := Slice(arr, |hs|);
      assert View(s) == hs;
      var found;
      s, found := RemoveHolder(s, m);
      hs' := s.arr[..s.len];
      FirstMatchUnique(hs, m, hs', found);
    }

    /** The section that ends a stop or a failed health gate. */
    method RemoveEntryByRunID(runID: string)
      modifies this
      ensures var rs := RemoveRun(old(entries), runID);
              entries == if AllOk(rs) then rs else old(entries)
    {
      var out: seq<Entry> := [];
      for i := 0 to |entries|
        invariant entries == old(entries) && out == RemoveRun(entries[..i], runID)
      {
        assert entries[..i + 1][..i] == entries[..i];
        if entries[i].runID != runID {
          out := out + [entries[i]];
        }
      }
      assert entries[..|entries|] == entries;
      var ok := SaveEntries(out);
    }

    /** Swap the pid of one holder record; nothing to swap is not an error. */
    method Rebind(dep: string, holderID: string, oldPid: int, newPid: int)
      modifies this
      ensures var rs := RebindIn(old(entries), dep, SensorHolder(holderID, oldPid), newPid);
              entries == if AllOk(rs) then rs else old(entries)
      ensures OnlyHolders(old(entries), entries)
    {
      var rs := entries;
      var existing := FindBlockingEntry(rs, dep);
      if existing.None? {
        return;
      }
      var k := existing.value;
      var hs, found := RepidFirst(rs[k].heldBy, SensorHolder(holderID, oldPid), newPid);
      if found {
        var ok := SaveEntries(rs[k := rs[k].(heldBy := hs)]);
      } else {
        assert rs[k := rs[k].(heldBy := hs)] == rs;
      }
    }

    method RepidFirst(hs: seq<Holder>, m: Holder, newPid: int) returns (hs': seq<Holder>, found: bool)
      ensures hs' == Repid(hs, m, newPid)
      ensures !found ==> hs' == hs
    {
      hide Repid, HoldersMatch;
      RepidStart(hs, m, newPid);
      for i := 0 to |hs|
        invariant Repid(hs, m, newPid) == hs[..i] + Repid(hs[i..], m, newPid)
      {
        RepidStep(hs, m, newPid, i);
        if HoldersMatch(hs[i], m) {
          return hs[i := hs[i].(pid := newPid)], true;
        }
      }
      RepidEnd(hs, m, newPid);
      return hs, false;
    }
  }

  lemma RepidStart(hs: seq<Holder>, m: Holder, newPid: int)
    ensures Repid(hs, m, newPid) == hs[..0] + Repid(hs[0..], m, newPid)
  {
    assert hs[0..] == hs;
  }

  lemma RepidStep(hs: seq<Holder>, m: Holder, newPid: int, i: nat)
    requires i < |hs|
    ensures hs[..i] + Repid(hs[i..], m, newPid) ==
            if HoldersMatch(hs[i], m) then hs[i := hs[i].(pid := newPid)]
            else hs[..i + 1] + Repid(hs[i + 1..], m, newPid)
  {
    assert hs[i..][1..] == hs[i + 1..];
    if HoldersMatch(hs[i], m) {
      assert hs[..i] + ([hs[i].(pid := newPid)] + hs[i + 1..]) == hs[i := hs[i].(pid := newPid)];
    } else {
      assert hs[..i] + ([hs[i]] + Repid(hs[i + 1..], m, newPid)) == hs[..i + 1] + Repid(hs[i + 1..], m, newPid);
    }
  }

  lemma RepidEnd(hs: seq<Holder>, m: Holder, newPid: int)
    ensures hs[..|hs|] + Repid(hs[|hs|..], m, newPid) == hs
  {}

  lemma FirstMatchUnique(hs: seq<Holder>, m: Holder, hs': seq<Holder>, found: bool)
    requires FirstMatchRemoved(hs, m, hs', found)
    ensures hs' == RemoveMatch(hs, m)
  {
    RemoveMatchIsFirst(hs, m);
    if found {
      var i: nat :| IsFirstMatch(hs, m, i) && hs' == hs[..i] + hs[i + 1..];
      assert HoldersMatch(hs[i], m);
      var j: nat :| IsFirstMatch(hs, m, j) && RemoveMatch(hs, m) == hs[..j] + hs[j + 1..];
      assert i == j;
    }
  }
}
