/**
 * Concurrent persistent runs: each inserts its registry entry in one lock section and, when it returns, removes it
 * in another. Sections of different runs interleave freely, and run ids may collide.
 */
module PersistentRuns {
  import opened Options
  import opened Registry
  import opened LiveDeps

  /** A run is running, has returned, or has returned without being able to read the registry. */
  datatype Phase = Running | Returned | Leaked

  /** One run's view: the entry it tried to insert and whether that was persisted. */
  datatype Run = Run(entry: Entry, persistOK: bool, phase: Phase)

  datatype State = State(entries: seq<Entry>, runs: map<nat, Run>)

  /** `dirOk` and `readOk`: the run directory could be made, the registry could be read. */
  datatype Step =
    | Begin(r: nat, e: Entry, dirOk: bool, readOk: bool)
    | Return(r: nat, readOk: bool)

  predicate Collides(es: seq<Entry>, runID: string) {
    FirstIndex(es, WithRun(runID)).Some?
  }

  function InsertRun(es: seq<Entry>, e: Entry): seq<Entry> {
    if Collides(es, e.runID) || !AllOk(es + [e]) then es else es + [e]
  }

  predicate Inserts(es: seq<Entry>, e: Entry) {
    !Collides(es, e.runID) && AllOk(es + [e])
  }

  // ---- The sections as code ------------------------------------------------------------------

  method InsertSection(file: RegistryFile, e: Entry, readOk: bool) returns (ok: bool)
    modifies file
    ensures ok <==> readOk && Inserts(old(file.entries), e)
    ensures file.entries == if readOk then InsertRun(old(file.entries), e) else old(file.entries)
  {
    if !readOk {
      return false;
    }
    var existing := file.FindEntryByRunID(file.entries, e.runID);
    if existing.Some? {
      return false;
    }
    ok := file.SaveEntries(file.entries + [e]);
  }

  /** What a run does around its engine: a refused insert turns its removal off. */
  method RemoveSection(file: RegistryFile, run: Run, readOk: bool)
    modifies file
    ensures file.entries ==
            if run.persistOK && readOk && AllOk(RemoveRun(old(file.entries), run.entry.runID))
            then RemoveRun(old(file.entries), run.entry.runID) else old(file.entries)
  {
    if !run.persistOK || !readOk {
      return;
    }
    file.RemoveEntryByRunID(run.entry.runID);
  }

  // ---- Interleavings -------------------------------------------------------------------------

  ghost predicate Enabled(s: State, t: Step) {
    match t
    case Begin(r, _, _, _) => r !in s.runs
    case Return(r, _) => r in s.runs && s.runs[r].phase.Running?
  }

  function Next(s: State, t: Step): State {
    match t
    case Begin(r, e, dirOk, readOk) =>
      var ok := dirOk && readOk && Inserts(s.entries, e);
      State(if ok then s.entries + [e] else s.entries, s.runs[r := Run(e, ok, Running)])
    case Return(r, readOk) =>
      if r in s.runs then
        var run := s.runs[r];
        var rs := RemoveRun(s.entries, run.entry.runID);
        State(if run.persistOK && readOk && AllOk(rs) then rs else s.entries,
              s.runs[r := run.(phase := if !run.persistOK || (readOk && AllOk(rs)) then Returned else Leaked)])
      else s
  }

  predicate InFile(run: Run) {
    run.persistOK && !run.phase.Returned?
  }

  /** `order` lists the runs whose entries are in the file, in insertion order. */
  ghost predicate Present(s: State, order: seq<nat>) {
    && (forall r :: r in order <==> r in s.runs && InFile(s.runs[r]))
    && forall i, j :: 0 <= i < j < |order| ==>
       order[i] != order[j] && s.runs[order[i]].entry.runID != s.runs[order[j]].entry.runID
  }

  ghost function EntriesOf(s: State, order: seq<nat>): seq<Entry>
    requires forall r :: r in order ==> r in s.runs
  {
    seq(|order|, i requires 0 <= i < |order| && order[i] in s.runs => s.runs[order[i]].entry)
  }

  /** The file is what it was before the first insert followed by the entries of the runs still present. */
  ghost predicate Inv(init: seq<Entry>, s: State, order: seq<nat>) {
    && Present(s, order) && s.entries == init + EntriesOf(s, order)
    && (order != [] ==> AllOk(s.entries))
    && forall r :: r in order ==> !Collides(init, s.runs[r].entry.runID)
  }

  lemma {:induction false} RemoveRunAppend(a: seq<Entry>, b: seq<Entry>, runID: string)
    ensures RemoveRun(a + b, runID) == RemoveRun(a, runID) + RemoveRun(b, runID)
  {
    if b == [] {
      assert a + b == a;
    } else {
      var n := |b| - 1;
      RemoveRunAppend(a, b[..n], runID);
      assert (a + b)[..|a + b| - 1] == a + b[..n] && (a + b)[|a + b| - 1] == b[n];
    }
  }

  lemma {:induction false} RemoveRunAbsent(es: seq<Entry>, runID: string)
    requires forall i :: 0 <= i < |es| ==> es[i].runID != runID
    ensures RemoveRun(es, runID) == es
  {
    if es != [] {
      RemoveRunAbsent(es[..|es| - 1], runID);
    }
  }

  /** Removing a run id takes exactly the one entry that carries it. */
  lemma SplitAround(init: seq<Entry>, es: seq<Entry>, k: nat)
    requires k < |es|
    ensures init + es == (init + es[..k]) + [es[k]] + es[k + 1..]
    ensures init + DropAt(es, k) == (init + es[..k]) + es[k + 1..]
  {}

  lemma RemoveRunOne(init: seq<Entry>, es: seq<Entry>, k: nat)
    requires k < |es| && !Collides(init, es[k].runID)
    requires forall i :: 0 <= i < |es| && i != k ==> es[i].runID != es[k].runID
    ensures RemoveRun(init + es, es[k].runID) == init + DropAt(es, k)
  {
    var runID := es[k].runID;
    var before, after := init + es[..k], es[k + 1..];
    SplitAround(init, es, k);
    assert forall i :: 0 <= i < |init| ==> !WithRun(runID)(init[i]);
    assert forall i :: 0 <= i < |before| ==> before[i].runID != runID;
    assert RemoveRun([es[k]], runID) == [] by { assert [es[k]][..0] == []; }
    hide RemoveRun, Collides, DropAt, WithRun;
    RemoveRunAbsent(before, runID);
    RemoveRunAbsent(after, runID);
    RemoveRunAppend(before + [es[k]], after, runID);
    RemoveRunAppend(before, [es[k]], runID);
    assert before + [] == before;
  }

  ghost function DropAt<T>(s: seq<T>, k: nat): seq<T>
    requires k < |s|
  {
    s[..k] + s[k + 1..]
  }

  lemma BeginKeepsInv(init: seq<Entry>, s: State, order: seq<nat>, t: Step) returns (order': seq<nat>)
    requires t.Begin? && Inv(init, s, order) && Enabled(s, t)
    ensures Inv(init, Next(s, t), order')
  {
    var Begin(r, e, dirOk, readOk) := t;
    var s' := Next(s, t);
    assert r !in order;
    hide AllOk;
    if dirOk && readOk && Inserts(s.entries, e) {
      order' := order + [r];
      assert EntriesOf(s', order') == EntriesOf(s, order) + [e];
      assert s'.entries == init + EntriesOf(s', order');
      NotColliding(init, s, order, e.runID);
    } else {
      order' := order;
      assert EntriesOf(s', order) == EntriesOf(s, order);
    }
  }

  lemma NotColliding(init: seq<Entry>, s: State, order: seq<nat>, runID: string)
    requires Present(s, order) && s.entries == init + EntriesOf(s, order) && !Collides(s.entries, runID)
    ensures !Collides(init, runID)
    ensures forall i :: 0 <= i < |order| ==> s.runs[order[i]].entry.runID != runID
  {
    forall i | 0 <= i < |s.entries| ensures s.entries[i].runID != runID {
      assert !WithRun(runID)(s.entries[i]);
    }
    forall i | 0 <= i < |order| ensures s.runs[order[i]].entry.runID != runID {
      assert s.entries[|init| + i] == EntriesOf(s, order)[i];
    }
    forall i | 0 <= i < |init| ensures !WithRun(runID)(init[i]) {
      assert s.entries[i] == init[i];
    }
  }

  /** Dropping one run from the order drops its entry, and the others stay as they are. */
  lemma DropRun(s: State, s': State, order: seq<nat>, k: nat)
    requires Present(s, order) && k < |order|
    requires order[k] in s'.runs && s'.runs == s.runs[order[k] := s'.runs[order[k]]] && !InFile(s'.runs[order[k]])
    ensures Present(s', DropAt(order, k))
    ensures EntriesOf(s', DropAt(order, k)) == DropAt(EntriesOf(s, order), k)
    ensures forall x :: x in DropAt(order, k) ==> x in order && s'.runs[x] == s.runs[x]
  {
    DropElements(order, k);
    hide InFile;
    assert EntriesOf(s', DropAt(order, k)) == DropAt(EntriesOf(s, order), k);
  }

  lemma DropElements(order: seq<nat>, k: nat)
    requires k < |order| && forall i, j :: 0 <= i < j < |order| ==> order[i] != order[j]
    ensures forall x :: x in DropAt(order, k) <==> x in order && x != order[k]
  {
    var order' := DropAt(order, k);
    forall x ensures x in order' <==> x in order && x != order[k] {
      if x in order && x != order[k] {
        var i :| 0 <= i < |order| && order[i] == x;
        assert x == order'[if i < k then i else i - 1];
      }
    }
  }

  lemma EntryAt(init: seq<Entry>, s: State, order: seq<nat>, k: nat)
    requires Inv(init, s, order) && k < |order|
    ensures EntriesOf(s, order)[k] == s.runs[order[k]].entry
    ensures RemoveRun(s.entries, s.runs[order[k]].entry.runID) == init + DropAt(EntriesOf(s, order), k)
    ensures AllOk(init + DropAt(EntriesOf(s, order), k))
  {
    var es := EntriesOf(s, order);
    assert order[k] in order;
    assert forall i :: 0 <= i < |es| && i != k ==> es[i].runID != es[k].runID;
    RemoveRunOne(init, es, k);
    Without(init, es, k);
  }

  lemma ReturnKeepsInv(init: seq<Entry>, s: State, order: seq<nat>, t: Step) returns (order': seq<nat>)
    requires t.Return? && Inv(init, s, order) && Enabled(s, t)
    ensures Inv(init, Next(s, t), order')
    ensures t.r in order && t.readOk ==>
              exists k :: 0 <= k < |order| && order[k] == t.r && order' == DropAt(order, k)
    ensures !(t.r in order && t.readOk) ==> order' == order && Next(s, t).entries == s.entries
  {
    var Return(r, readOk) := t;
    var s' := Next(s, t);
    if r in order && readOk {
      var k :| 0 <= k < |order| && order[k] == r;
      order' := DropAt(order, k);
      EntryAt(init, s, order, k);
      DropRun(s, s', order, k);
      hide RemoveRun, Present, EntriesOf, DropAt, Collides;
      assert s'.entries == init + EntriesOf(s', order');
    } else {
      order' := order;
      assert EntriesOf(s', order) == EntriesOf(s, order);
    }
  }

  lemma Without(init: seq<Entry>, es: seq<Entry>, k: nat)
    requires AllOk(init + es) && k < |es|
    ensures AllOk(init + DropAt(es, k))
  {
    var rest := DropAt(es, k);
    forall i | 0 <= i < |init + rest| ensures EntryOk((init + rest)[i]) {
      var j := if i < |init| + k then i else i + 1;
      assert (init + rest)[i] == (init + es)[j];
    }
  }

  ghost predicate IsRun(init: seq<Entry>, ss: seq<State>, ts: seq<Step>) {
    && |ss| == |ts| + 1 && ss[0] == State(init, map[])
    && forall n :: 0 <= n < |ts| ==> Enabled(ss[n], ts[n]) && ss[n + 1] == Next(ss[n], ts[n])
  }

  lemma {:induction false} InvHolds(init: seq<Entry>, ss: seq<State>, ts: seq<Step>, n: nat) returns (order: seq<nat>)
    requires IsRun(init, ss, ts) && n <= |ts|
    ensures Inv(init, ss[n], order)
  {
    if n == 0 {
      order := [];
    } else {
      var before := InvHolds(init, ss, ts, n - 1);
      assert ss[n - 1 + 1] == Next(ss[n - 1], ts[n - 1]);
      if ts[n - 1].Begin? {
        order := BeginKeepsInv(init, ss[n - 1], before, ts[n - 1]);
      } else {
        order := ReturnKeepsInv(init, ss[n - 1], before, ts[n - 1]);
      }
    }
  }

  /** At every moment the file is what it was before the first insert exactly when no run's entry is still in it. */
  lemma RestoredIffNonePresent(init: seq<Entry>, ss: seq<State>, ts: seq<Step>, n: nat)
    requires IsRun(init, ss, ts) && n <= |ts|
    ensures ss[n].entries == init <==> forall r :: r in ss[n].runs ==> !InFile(ss[n].runs[r])
  {
    var order := InvHolds(init, ss, ts, n);
    assert |ss[n].entries| == |init| + |order|;
    if order != [] {
      assert order[0] in order;
    } else {
      assert init + EntriesOf(ss[n], order) == init;
    }
  }

  /** A persisted run that returns while the registry cannot be read. */
  predicate Strands(s: State, t: Step) {
    t.Return? && t.r in s.runs && s.runs[t.r].persistOK && !t.readOk
  }

  /** A run leaks exactly when its return strands its entry. */
  lemma {:induction false} LeakedIffStranded(init: seq<Entry>, ss: seq<State>, ts: seq<Step>, n: nat, r: nat)
    requires IsRun(init, ss, ts) && n <= |ts|
    ensures (r in ss[n].runs && ss[n].runs[r].phase.Leaked?) <==>
            exists m :: 0 <= m < n && Strands(ss[m], ts[m]) && ts[m].r == r
    ensures r in ss[n].runs && ss[n].runs[r].phase.Leaked? ==> ss[n].runs[r].persistOK
  {
    if n > 0 {
      LeakedIffStranded(init, ss, ts, n - 1, r);
      var s, t := ss[n - 1], ts[n - 1];
      assert ss[n - 1 + 1] == Next(s, t) && Enabled(s, t);
      if t.Return? && t.readOk && s.runs[t.r].persistOK {
        ReadableReturnSucceeds(init, ss, ts, n - 1);
      }
      hide IsRun, AllOk, RemoveRun, Inserts;
    }
  }

  /**
   * When every run has returned, the file is what it was before the first insert if and only if no persisted run
   * returned while the registry could not be read.
   */
  lemma AllReturnedRestoresIff(init: seq<Entry>, ss: seq<State>, ts: seq<Step>)
    requires IsRun(init, ss, ts)
    requires forall r :: r in ss[|ts|].runs ==> !ss[|ts|].runs[r].phase.Running?
    ensures ss[|ts|].entries == init <==> forall m :: 0 <= m < |ts| ==> !Strands(ss[m], ts[m])
  {
    var s := ss[|ts|];
    RestoredIffNonePresent(init, ss, ts, |ts|);
    forall r ensures (r in s.runs && s.runs[r].phase.Leaked?) <==>
        exists m :: 0 <= m < |ts| && Strands(ss[m], ts[m]) && ts[m].r == r {
      LeakedIffStranded(init, ss, ts, |ts|, r);
    }
    forall r | r in s.runs && s.runs[r].phase.Leaked? ensures s.runs[r].persistOK {
      LeakedIffStranded(init, ss, ts, |ts|, r);
    }
    hide Strands;
    if m :| 0 <= m < |ts| && Strands(ss[m], ts[m]) {
      assert s.runs[ts[m].r].phase.Leaked? && InFile(s.runs[ts[m].r]);
    } else {
      forall r | r in s.runs ensures !InFile(s.runs[r]) {}
    }
  }

  const LONE: Entry := Entry("sensor", "r", false, 1, 1, 0, [])

  /** One run that returns at such a moment leaves its entry behind. */
  lemma LoneRunStrands() returns (ss: seq<State>, ts: seq<Step>)
    ensures IsRun([], ss, ts) && |ts| == 2 && Strands(ss[1], ts[1]) && ss[2].entries == [LONE]
    ensures forall r :: r in ss[2].runs ==> !ss[2].runs[r].phase.Running?
  {
    var s0 := State([], map[]);
    ts := [Begin(0, LONE, true, true), Return(0, false)];
    var s1 := Next(s0, ts[0]);
    assert [] + [LONE] == [LONE] && EntryOk(LONE);
    ss := [s0, s1, Next(s1, ts[1])];
    assert s1.runs == map[0 := Run(LONE, true, Running)];
    assert ss[2].runs == map[0 := Run(LONE, true, Leaked)];
    forall n | 0 <= n < |ts| ensures Enabled(ss[n], ts[n]) && ss[n + 1] == Next(ss[n], ts[n]) {
      assert n == 0 || n == 1;
    }
  }

  /** A persisted run that returns with a readable registry has returned for good: its removal is never refused. */
  lemma ReadableReturnSucceeds(init: seq<Entry>, ss: seq<State>, ts: seq<Step>, n: nat)
    requires IsRun(init, ss, ts) && n < |ts| && ts[n].Return? && ts[n].readOk && ss[n].runs[ts[n].r].persistOK
    ensures ss[n + 1].runs[ts[n].r].phase.Returned?
  {
    var order := InvHolds(init, ss, ts, n);
    assert ss[n + 1] == Next(ss[n], ts[n]) && ts[n].r in order;
    var k :| 0 <= k < |order| && order[k] == ts[n].r;
    EntryAt(init, ss[n], order, k);
  }

  /**
   * A run removes its own entry and no other: everyone else's entry, in particular that of a run whose id it
   * collided with, is still there after it returns.
   */
  lemma ReturnRemovesOwnOnly(init: seq<Entry>, ss: seq<State>, ts: seq<Step>, n: nat, other: nat)
    requires IsRun(init, ss, ts) && n < |ts| && ts[n].Return? && other != ts[n].r
    requires other in ss[n].runs && InFile(ss[n].runs[other])
    ensures ss[n].runs[other].entry in ss[n + 1].entries
    ensures !ss[n].runs[ts[n].r].persistOK ==> ss[n + 1].entries == ss[n].entries
    ensures forall e :: e in init ==> e in ss[n + 1].entries
  {
    var order := InvHolds(init, ss, ts, n);
    assert ss[n + 1] == Next(ss[n], ts[n]);
    var order' := ReturnKeepsInv(init, ss[n], order, ts[n]);
    assert other in order';
    var i :| 0 <= i < |order'| && order'[i] == other;
    assert EntriesOf(ss[n + 1], order')[i] == ss[n].runs[other].entry;
    assert ss[n + 1].entries[|init| + i] == ss[n].runs[other].entry;
    forall e | e in init ensures e in ss[n + 1].entries {
      var j :| 0 <= j < |init| && init[j] == e;
      assert ss[n + 1].entries[j] == e;
    }
  }
}
