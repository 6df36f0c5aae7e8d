/** The registry file's entries: validation before a save, and the in-place repair of legacy entries. */
module Registry {
  import opened Options
  import opened Holders
  import opened Picks

  /** An entry as stored in the entries array; `heldBy` is a header over the entry's own backing array. */
  datatype Stored = Stored(sensorID: string, runID: string, blocking: bool,
                           pid: int, pgid: int, watcherPID: int, heldBy: Slice<Holder>)

  /** The same entry as a value. */
  datatype Entry = Entry(sensorID: string, runID: string, blocking: bool,
                         pid: int, pgid: int, watcherPID: int, heldBy: seq<Holder>)

  datatype Field = Pid | Pgid | WatcherPid | HolderPid(index: nat) | RunId

  datatype Report = Report(sensorID: string, field: Field, oldValue: int, dropped: bool)

  // ---- Validation ----------------------------------------------------------------------------

  predicate HolderOk(h: Holder) {
    h.pid >= 0 && (h.kind == "sensor" ==> h.pid >= 1)
  }

  predicate EntryOk(e: Entry) {
    e.pid >= 1 && e.pgid >= 1 && e.watcherPID >= 0 && forall i :: 0 <= i < |e.heldBy| ==> HolderOk(e.heldBy[i])
  }

  /** The first offending field, with its value; none exactly when the entry is valid. */
  method ValidateEntry(e: Entry) returns (bad: Option<(Field, int)>)
    ensures bad.None? <==> EntryOk(e)
    ensures bad.Some? ==>
              match bad.value.0
              case Pid => e.pid < 1 && bad.value.1 == e.pid
              case Pgid => e.pid >= 1 && e.pgid < 1 && bad.value.1 == e.pgid
              case WatcherPid => e.pid >= 1 && e.pgid >= 1 && e.watcherPID < 0 && bad.value.1 == e.watcherPID
              case HolderPid(i) =>
                && e.pid >= 1 && e.pgid >= 1 && e.watcherPID >= 0 && i < |e.heldBy|
                && !HolderOk(e.heldBy[i]) && bad.value.1 == e.heldBy[i].pid
                && forall j :: 0 <= j < i ==> HolderOk(e.heldBy[j])
              case RunId => false
  {
    if e.pid < 1 { return Some((Pid, e.pid)); }
    if e.pgid < 1 { return Some((Pgid, e.pgid)); }
    if e.watcherPID < 0 { return Some((WatcherPid, e.watcherPID)); }
    for i := 0 to |e.heldBy|
      invariant forall j :: 0 <= j < i ==> HolderOk(e.heldBy[j])
    {
      if e.heldBy[i].pid < 0 { return Some((HolderPid(i), e.heldBy[i].pid)); }
      if e.heldBy[i].kind == "sensor" && e.heldBy[i].pid < 1 { return Some((HolderPid(i), e.heldBy[i].pid)); }
    }
    return None;
  }

  /** `Save` writes only when every entry is valid; on refusal the file keeps its content. */
  method Save(entries: seq<Entry>, file: seq<Entry>) returns (file': seq<Entry>, ok: bool)
    ensures ok <==> forall e :: e in entries ==> EntryOk(e)
    ensures file' == if ok then entries else file
  {
    for i := 0 to |entries|
      invariant forall j :: 0 <= j < i ==> EntryOk(entries[j])
    {
      var bad := ValidateEntry(entries[i]);
      if bad.Some? {
        return file, false;
      }
    }
    return entries, true;
  }

  // ---- Repair, on values ---------------------------------------------------------------------

  function Decimal(n: nat): (s: string)
    ensures |s| > 0
  {
    var digit := ["0", "1", "2", "3", "4", "5", "6", "7", "8", "9"][n % 10];
    if n < 10 then digit else Decimal(n / 10) + digit
  }

  function LegacyRunID(pid: nat): (s: string)
    ensures s != ""
  {
    Decimal(pid) + "-legacy"
  }

  /** Holder records after repair, and the report entries the repair leaves. */
  function RepairHolders(sid: string, hs: seq<Holder>): (seq<Holder>, seq<Report>) {
    if hs == [] then ([], [])
    else
      var n := |hs| - 1;
      var (kept, reports) := RepairHolders(sid, hs[..n]);
      var h := hs[n];
      if h.kind == "sensor" && h.pid < 1 then (kept, reports + [Report(sid, HolderPid(n), h.pid, true)])
      else if h.pid < 0 then (kept + [h.(pid := 0)], reports + [Report(sid, HolderPid(n), h.pid, false)])
      else (kept + [h], reports)
  }

  predicate Keeps(e: Entry) {
    e.pid >= 1 && e.pgid >= 1
  }

  function RepairEntry(e: Entry): (Entry, seq<Report>)
    requires Keeps(e)
  {
    var watcher := if e.watcherPID < 0 then [Report(e.sensorID, WatcherPid, e.watcherPID, false)] else [];
    var (holders, dropped) := RepairHolders(e.sensorID, e.heldBy);
    var e1 := e.(watcherPID := if e.watcherPID < 0 then 0 else e.watcherPID, heldBy := holders);
    if e.runID == "" then
      (e1.(runID := LegacyRunID(e.pid), blocking := true), watcher + dropped + [Report(e.sensorID, RunId, 0, false)])
    else (e1, watcher + dropped)
  }

  function DropReport(e: Entry): Report
    requires !Keeps(e)
  {
    if e.pid < 1 then Report(e.sensorID, Pid, e.pid, true) else Report(e.sensorID, Pgid, e.pgid, true)
  }

  function Repair(es: seq<Entry>): (seq<Entry>, seq<Report>) {
    if es == [] then ([], [])
    else
      var n := |es| - 1;
      var (kept, reports) := Repair(es[..n]);
      if !Keeps(es[n]) then (kept, reports + [DropReport(es[n])])
      else (kept + [RepairEntry(es[n]).0], reports + RepairEntry(es[n]).1)
  }

  lemma {:induction false} RepairedHoldersOk(sid: string, hs: seq<Holder>)
    ensures forall h :: h in RepairHolders(sid, hs).0 ==> HolderOk(h)
    ensures |RepairHolders(sid, hs).0| <= |hs|
  {
    if hs != [] { RepairedHoldersOk(sid, hs[..|hs| - 1]); }
  }

  lemma {:induction false} HoldersUntouchedIff(sid: string, hs: seq<Holder>)
    ensures RepairHolders(sid, hs).1 == [] <==> RepairHolders(sid, hs).0 == hs
    ensures RepairHolders(sid, hs).1 == [] <==> forall i :: 0 <= i < |hs| ==> HolderOk(hs[i])
  {
    if hs != [] {
      var n := |hs| - 1;
      HoldersUntouchedIff(sid, hs[..n]);
      RepairedHoldersOk(sid, hs[..n]);
      assert hs == hs[..n] + [hs[n]];
      assert (forall i :: 0 <= i < |hs| ==> HolderOk(hs[i])) <==>
             (forall i :: 0 <= i < n ==> HolderOk(hs[..n][i])) && HolderOk(hs[n]);
    }
  }

  lemma RepairedEntryOk(e: Entry)
    requires Keeps(e)
    ensures EntryOk(RepairEntry(e).0) && RepairEntry(e).0.runID != ""
    ensures RepairEntry(e).0.sensorID == e.sensorID && RepairEntry(e).0.pid == e.pid
    ensures RepairEntry(e).1 == [] <==> RepairEntry(e).0 == e
    ensures RepairEntry(e).1 == [] <==> Clean(e)
  {
    RepairedHoldersOk(e.sensorID, e.heldBy);
    HoldersUntouchedIff(e.sensorID, e.heldBy);
    var hs := RepairHolders(e.sensorID, e.heldBy).0;
    assert forall i :: 0 <= i < |hs| ==> hs[i] in hs;
  }

  /** The entries that survive, in order. */
  function Surviving(es: seq<Entry>): seq<Entry> {
    if es == [] then []
    else Surviving(es[..|es| - 1]) + if Keeps(es[|es| - 1]) then [es[|es| - 1]] else []
  }

  /** A repaired registry can be saved. */
  lemma {:induction false} RepairedCanBeSaved(es: seq<Entry>)
    ensures forall e :: e in Repair(es).0 ==> EntryOk(e) && e.runID != ""
  {
    if es != [] {
      var n := |es| - 1;
      RepairedCanBeSaved(es[..n]);
      if Keeps(es[n]) { RepairedEntryOk(es[n]); }
      hide RepairEntry, EntryOk, DropReport;
    }
  }

  /** Survivors keep their order and are repaired one by one. */
  lemma {:induction false} RepairKeepsOrder(es: seq<Entry>)
    ensures |Repair(es).0| == |Surviving(es)| <= |es|
    ensures forall i :: 0 <= i < |Repair(es).0| ==>
            Keeps(Surviving(es)[i]) && Repair(es).0[i] == RepairEntry(Surviving(es)[i]).0
  {
    hide RepairEntry, DropReport;
    if es != [] {
      RepairKeepsOrder(es[..|es| - 1]);
    }
  }

  predicate Clean(e: Entry) {
    EntryOk(e) && e.runID != ""
  }

  ghost predicate AllClean(es: seq<Entry>) {
    forall i :: 0 <= i < |es| ==> Clean(es[i])
  }

  /** The report is empty exactly when every entry was clean already. */
  lemma {:induction false} ReportsExactlyUnclean(es: seq<Entry>)
    ensures Repair(es).1 == [] <==> AllClean(es)
  {
    if es != [] {
      var n := |es| - 1;
      ReportsExactlyUnclean(es[..n]);
      assert Clean(es[n]) ==> Keeps(es[n]);
      if Keeps(es[n]) { RepairedEntryOk(es[n]); }
      assert AllClean(es) <==> AllClean(es[..n]) && Clean(es[n]) by { hide Clean; assert es == es[..n] + [es[n]]; }
      assert Repair(es).1 == Repair(es[..n]).1 + if Keeps(es[n]) then RepairEntry(es[n]).1 else [DropReport(es[n])];
      hide *;
    }
  }

  /** The report is empty exactly when nothing changed. */
  lemma {:induction false} ReportsExactlyChanges(es: seq<Entry>)
    ensures Repair(es).1 == [] <==> Repair(es).0 == es
  {
    if es != [] {
      var n := |es| - 1;
      ReportsExactlyChanges(es[..n]);
      RepairKeepsOrder(es[..n]);
      assert es == es[..n] + [es[n]];
      if Keeps(es[n]) {
        RepairedEntryOk(es[n]);
        assert Repair(es).1 == Repair(es[..n]).1 + RepairEntry(es[n]).1;
        assert Repair(es).0 == Repair(es[..n]).0 + [RepairEntry(es[n]).0];
        hide *;
        SnocEqual(Repair(es[..n]).0, RepairEntry(es[n]).0, es[..n], es[n]);
      } else {
        assert |Repair(es).0| < |es| && |Repair(es).1| > 0;
      }
    }
  }

  lemma SnocEqual<T>(a: seq<T>, x: T, b: seq<T>, y: T)
    ensures a + [x] == b + [y] <==> a == b && x == y
  {
    if a + [x] == b + [y] {
      assert a == (a + [x])[..|a|] && b == (b + [y])[..|b|];
      assert x == (a + [x])[|a|] && y == (b + [y])[|b|];
    }
  }

  lemma RepairTwice(es: seq<Entry>)
    ensures Repair(Repair(es).0) == (Repair(es).0, [])
  {
    RepairedCanBeSaved(es);
    ReportsExactlyUnclean(Repair(es).0);
    ReportsExactlyChanges(Repair(es).0);
  }

  // ---- What repair changes and what it leaves ------------------------------------------------

  /** What each of the records that survive is repaired to. */
  ghost predicate RepairedHolder(h: Holder, h': Holder) {
    h' == if h.pid < 0 then h.(pid := 0) else h
  }

  predicate Lasting(h: Holder) {
    !(h.kind == "sensor" && h.pid < 1)
  }

  ghost predicate RepairedHolders(hs: seq<Holder>, kept: seq<Holder>, idx: seq<nat>) {
    && PicksOut(idx, hs, Lasting) && |kept| == |idx|
    && forall k :: 0 <= k < |kept| ==> RepairedHolder(hs[idx[k]], kept[k])
  }

  predicate Invalid(h: Holder) {
    h.pid < 0 || (h.kind == "sensor" && h.pid < 1)
  }

  ghost predicate ReportedHolders(sid: string, hs: seq<Holder>, reports: seq<Report>, bad: seq<nat>) {
    && PicksOut(bad, hs, Invalid) && |reports| == |bad|
    && forall k :: 0 <= k < |reports| ==>
         reports[k] == Report(sid, HolderPid(bad[k]), hs[bad[k]].pid, hs[bad[k]].kind == "sensor")
  }

  /** The surviving records are, in order, exactly those that are no sensor records with a pid below 1. */
  lemma {:induction false} HoldersKeptExactly(sid: string, hs: seq<Holder>) returns (idx: seq<nat>)
    ensures RepairedHolders(hs, RepairHolders(sid, hs).0, idx)
  {
    idx := [];
    if hs != [] {
      var before := HoldersKeptExactly(sid, hs[..|hs| - 1]);
      PicksLast(before, hs, Lasting);
      idx := PickLast(before, hs, Lasting);
      hide PicksOut;
    }
  }

  /** The reports name, in order, exactly the positions of the invalid records, with their pids. */
  lemma {:induction false} HoldersReportedExactly(sid: string, hs: seq<Holder>) returns (bad: seq<nat>)
    ensures ReportedHolders(sid, hs, RepairHolders(sid, hs).1, bad)
  {
    bad := [];
    if hs != [] {
      var before := HoldersReportedExactly(sid, hs[..|hs| - 1]);
      PicksLast(before, hs, Invalid);
      bad := PickLast(before, hs, Invalid);
      hide PicksOut;
    }
  }

  /** The number a string of decimal digits stands for. */
  function Number(d: string): nat
    requires forall i :: 0 <= i < |d| ==> '0' <= d[i] <= '9'
  {
    if d == "" then 0 else 10 * Number(d[..|d| - 1]) + (d[|d| - 1] as int - '0' as int)
  }

  /** `d` is how `n` is written: its digits, without a leading zero. */
  ghost predicate Writes(d: string, n: nat) {
    && d != "" && (forall i :: 0 <= i < |d| ==> '0' <= d[i] <= '9') && Number(d) == n && (d[0] == '0' ==> |d| == 1)
  }

  lemma {:induction false} DecimalWrites(n: nat)
    ensures Writes(Decimal(n), n)
  {
    var digit := ["0", "1", "2", "3", "4", "5", "6", "7", "8", "9"][n % 10];
    assert |digit| == 1 && '0' <= digit[0] <= '9' && digit[0] as int - '0' as int == n % 10;
    if n < 10 {
      assert digit[..0] == "" && Number(digit) == n;
    } else {
      DecimalWrites(n / 10);
      assert (Decimal(n / 10) + digit)[..|Decimal(n / 10)|] == Decimal(n / 10);
      assert Number(Decimal(n / 10) + digit) == 10 * (n / 10) + n % 10;
      NoLeadingZero(Decimal(n / 10), n / 10);
    }
  }

  lemma NoLeadingZero(d: string, n: nat)
    requires Writes(d, n) && n > 0
    ensures d[0] != '0'
  {
    assert |d| == 1 ==> d[..0] == "" && Number(d) == 10 * Number(d[..0]) + (d[0] as int - '0' as int);
  }

  ghost predicate IsLegacyRunID(s: string, pid: int) {
    exists d :: pid >= 0 && Writes(d, pid) && s == d + "-legacy"
  }

  /** What an entry that survives is repaired to. */
  ghost predicate RepairedEntry(e: Entry, e': Entry) {
    && e'.sensorID == e.sensorID && e'.pid == e.pid && e'.pgid == e.pgid
    && e'.watcherPID == (if e.watcherPID < 0 then 0 else e.watcherPID)
    && (exists idx :: RepairedHolders(e.heldBy, e'.heldBy, idx))
    && if e.runID == "" then IsLegacyRunID(e'.runID, e.pid) && e'.blocking
       else e'.runID == e.runID && e'.blocking == e.blocking
  }

  predicate Running(e: Entry) {
    e.pid >= 1 && e.pgid >= 1
  }

  lemma EntryRepaired(e: Entry)
    requires Keeps(e)
    ensures RepairedEntry(e, RepairEntry(e).0)
  {
    var idx := HoldersKeptExactly(e.sensorID, e.heldBy);
    DecimalWrites(e.pid);
    hide RepairedHolders, Writes;
  }

  /** The surviving entries are, in order, exactly those with a pid and a pgid, each repaired by itself. */
  lemma {:induction false} EntriesKeptExactly(es: seq<Entry>) returns (idx: seq<nat>)
    ensures PicksOut(idx, es, Running) && |Repair(es).0| == |idx|
    ensures forall k :: 0 <= k < |idx| ==> RepairedEntry(es[idx[k]], Repair(es).0[k])
  {
    idx := [];
    if es != [] {
      var e := es[|es| - 1];
      var before := EntriesKeptExactly(es[..|es| - 1]);
      PicksLast(before, es, Running);
      idx := PickLast(before, es, Running);
      if Running(e) { EntryRepaired(e); }
      hide PicksOut, RepairedEntry, RepairEntry, DropReport;
    }
  }

  /** What the report says about an entry: the field, its old value, and whether something was dropped. */
  ghost predicate Blames(e: Entry, r: Report) {
    r.sensorID == e.sensorID &&
    match r.field
    case Pid => e.pid < 1 && r.oldValue == e.pid && r.dropped
    case Pgid => e.pid >= 1 && e.pgid < 1 && r.oldValue == e.pgid && r.dropped
    case WatcherPid => Running(e) && e.watcherPID < 0 && r.oldValue == e.watcherPID && !r.dropped
    case HolderPid(i) =>
      && Running(e) && i < |e.heldBy| && Invalid(e.heldBy[i])
      && r.oldValue == e.heldBy[i].pid && (r.dropped <==> e.heldBy[i].kind == "sensor")
    case RunId => Running(e) && e.runID == "" && r.oldValue == 0 && !r.dropped
  }

  lemma EntryReported(e: Entry, r: Report)
    requires Keeps(e)
    ensures r in RepairEntry(e).1 <==> Blames(e, r)
  {
    var bad := HoldersReportedExactly(e.sensorID, e.heldBy);
    var found := RepairHolders(e.sensorID, e.heldBy).1;
    HolderReported(e.sensorID, e.heldBy, found, bad, r);
    hide ReportedHolders, RepairHolders, Invalid;
  }

  lemma HolderReported(sid: string, hs: seq<Holder>, reports: seq<Report>, bad: seq<nat>, r: Report)
    requires ReportedHolders(sid, hs, reports, bad)
    ensures r in reports <==>
            && r.sensorID == sid && r.field.HolderPid? && r.field.index < |hs| && Invalid(hs[r.field.index])
            && r.oldValue == hs[r.field.index].pid && (r.dropped <==> hs[r.field.index].kind == "sensor")
  {
    if r.field.HolderPid? && r.field.index < |hs| && Invalid(hs[r.field.index]) {
      var k :| 0 <= k < |bad| && bad[k] == r.field.index;
      assert reports[k] in reports;
    }
  }

  /** The report has exactly what was wrong with some entry. */
  lemma {:induction false} ReportsExactly(es: seq<Entry>, r: Report)
    ensures r in Repair(es).1 <==> exists i :: 0 <= i < |es| && Blames(es[i], r)
  {
    if es != [] {
      var n, init := |es| - 1, es[..|es| - 1];
      ReportsExactly(init, r);
      if Keeps(es[n]) { EntryReported(es[n], r); }
      var here := if Keeps(es[n]) then RepairEntry(es[n]).1 else [DropReport(es[n])];
      assert r in here <==> Blames(es[n], r);
      assert Repair(es).1 == Repair(init).1 + here;
      hide *;
      if i :| 0 <= i < |es| && Blames(es[i], r) {
        assert i < n ==> Blames(init[i], r);
      }
      if i :| 0 <= i < |init| && Blames(init[i], r) {
        assert Blames(es[i], r);
      }
    }
  }

  // ---- Repair, in place ----------------------------------------------------------------------

  ghost function Value(s: Stored): Entry
    requires Valid(s.heldBy)
    reads s.heldBy.arr
  {
    Entry(s.sensorID, s.runID, s.blocking, s.pid, s.pgid, s.watcherPID, View(s.heldBy))
  }

  method RepairHoldersInPlace(sid: string, s: Slice<Holder>) returns (s': Slice<Holder>, reports: seq<Report>)
    requires Valid(s)
    modifies s.arr
    ensures Valid(s') && s'.arr == s.arr
    ensures (View(s'), reports) == RepairHolders(sid, old(View(s)))
  {
    ghost var hs := View(s);
    reports := [];
    var keep := 0;
    for i := 0 to s.len
      invariant keep <= i
      invariant (s.arr[..keep], reports) == RepairHolders(sid, hs[..i])
      invariant forall j :: i <= j < s.arr.Length ==> s.arr[j] == old(s.arr[j])
    {
      assert hs[..i + 1][..i] == hs[..i] && hs[..i + 1][i] == s.arr[i];
      ghost var before := s.arr[..keep];
      var h := s.arr[i];
      if h.kind == "sensor" && h.pid < 1 {
        reports := reports + [Report(sid, HolderPid(i), h.pid, true)];
        continue;
      }
      if h.pid < 0 {
        reports := reports + [Report(sid, HolderPid(i), h.pid, false)];
        h := h.(pid := 0);
      }
      s.arr[keep] := h;
      keep := keep + 1;
      assert s.arr[..keep] == before + [h];
    }
    assert hs[..s.len] == hs;
    hide RepairHolders;
    s' := Slice(s.arr, keep);
  }

  /** The first `n` entries as decoding leaves them: valid headers, no two over the same backing array. */
  ghost predicate Separate(a: array<Stored>, n: nat)
    reads a
  {
    && n <= a.Length
    && (forall i :: 0 <= i < n ==> Valid(a[i].heldBy))
    && forall i, j :: 0 <= i < j < n ==> a[i].heldBy.arr != a[j].heldBy.arr
  }

  ghost function HolderArrays(a: array<Stored>, n: nat): set<array<Holder>>
    requires n <= a.Length
    reads a
  {
    set i | 0 <= i < n :: a[i].heldBy.arr
  }

  ghost function Values(a: array<Stored>, n: nat): seq<Entry>
    requires Separate(a, n)
    reads a, HolderArrays(a, n)
  {
    seq(n, i requires 0 <= i < n && Separate(a, n) reads a, HolderArrays(a, n) => Value(a[i]))
  }

  method SanitizeEntry(stored: Stored) returns (e: Stored, reports: seq<Report>)
    requires Valid(stored.heldBy) && stored.pid >= 1 && stored.pgid >= 1
    modifies stored.heldBy.arr
    ensures Valid(e.heldBy) && e.heldBy.arr == stored.heldBy.arr
    ensures (Value(e), reports) == RepairEntry(old(Value(stored)))
  {
    e, reports := stored, [];
    if e.watcherPID < 0 {
      reports := reports + [Report(e.sensorID, WatcherPid, e.watcherPID, false)];
      e := e.(watcherPID := 0);
    }
    var holders, dropped := RepairHoldersInPlace(e.sensorID, e.heldBy);
    reports := reports + dropped;
    e := e.(heldBy := holders);
    if e.runID == "" {
      reports := reports + [Report(e.sensorID, RunId, 0, false)];
      e := e.(runID := LegacyRunID(e.pid), blocking := true);
    }
    hide RepairHolders, LegacyRunID;
    ghost var was := old(Value(stored));
    assert Keeps(was);
    assert Value(e) == RepairEntry(was).0;
    assert reports == RepairEntry(was).1;
  }

  lemma RepairSnoc(es: seq<Entry>, i: nat)
    requires i < |es|
    ensures Repair(es[..i + 1]) ==
            if !Keeps(es[i]) then (Repair(es[..i]).0, Repair(es[..i]).1 + [DropReport(es[i])])
            else (Repair(es[..i]).0 + [RepairEntry(es[i]).0], Repair(es[..i]).1 + RepairEntry(es[i]).1)
  {
    assert es[..i + 1][..i] == es[..i] && es[..i + 1][i] == es[i];
  }

  /** The kept headers hold the repaired values, over arrays that belong to none of the entries still to come. */
  ghost predicate Holding(kept: seq<Stored>, rest: seq<Stored>, repaired: seq<Entry>)
    reads set s | s in kept :: s.heldBy.arr
  {
    && |kept| == |repaired|
    && (forall k :: 0 <= k < |kept| ==> Valid(kept[k].heldBy) && Value(kept[k]) == repaired[k])
    && (forall j, k :: 0 <= j < k < |kept| ==> kept[j].heldBy.arr != kept[k].heldBy.arr)
    && forall j, k :: 0 <= j < |rest| && 0 <= k < |kept| ==> kept[k].heldBy.arr != rest[j].heldBy.arr
  }

  /** The entries still to come, untouched. */
  ghost predicate Untouched(rest: seq<Stored>, values: seq<Entry>)
    reads set s | s in rest :: s.heldBy.arr
  {
    && |rest| == |values|
    && (forall k :: 0 <= k < |rest| ==> Valid(rest[k].heldBy) && Value(rest[k]) == values[k])
    && forall j, k :: 0 <= j < k < |rest| ==> rest[j].heldBy.arr != rest[k].heldBy.arr
  }

  /** Repair the first entry still to come, whose array no other entry shares. */
  method SanitizeNext(next: Stored, ghost rest: seq<Stored>, ghost values: seq<Entry>, ghost kept: seq<Stored>,
                      ghost repaired: seq<Entry>)
    returns (e: Stored, reports: seq<Report>)
    requires |rest| > 0 && rest[0] == next
    requires Untouched(rest, values) && Holding(kept, rest, repaired) && Keeps(values[0])
    modifies next.heldBy.arr
    ensures Untouched(rest[1..], values[1..])
    ensures Holding(kept + [e], rest[1..], repaired + [RepairEntry(values[0]).0])
    ensures reports == RepairEntry(values[0]).1
    ensures e.heldBy.arr == next.heldBy.arr
  {
    e, reports := SanitizeEntry(next);
    hide RepairEntry;
    assert Untouched(rest[1..], values[1..]) by {
      forall k | 0 <= k < |rest| - 1 ensures Value(rest[1..][k]) == values[1..][k] {
        assert rest[1..][k] == rest[k + 1] && rest[k + 1].heldBy.arr != rest[0].heldBy.arr;
      }
    }
  }

  lemma SkipNext(rest: seq<Stored>, values: seq<Entry>, kept: seq<Stored>, repaired: seq<Entry>)
    requires |rest| > 0 && Untouched(rest, values) && Holding(kept, rest, repaired)
    ensures Untouched(rest[1..], values[1..]) && Holding(kept, rest[1..], repaired)
    ensures values[0].pid == rest[0].pid && values[0].pgid == rest[0].pgid && values[0].sensorID == rest[0].sensorID
  {}

  /** Writing the entries array changes no holder array. */
  method Store(a: array<Stored>, k: nat, e: Stored,
               ghost kept: seq<Stored>, ghost rest: seq<Stored>, ghost repaired: seq<Entry>, ghost values: seq<Entry>)
    requires k < a.Length && Holding(kept, rest, repaired) && Untouched(rest, values)
    modifies a
    ensures a[..] == old(a[..])[k := e]
    ensures Holding(kept, rest, repaired) && Untouched(rest, values)
  {
    a[k] := e;
  }

  /** Cells `..keep` hold the kept entries and cells `i..n` the entries still to come. */
  ghost predicate Layout(cells: seq<Stored>, n: nat, i: nat, keep: nat, kept: seq<Stored>, rest: seq<Stored>) {
    keep <= i <= n <= |cells| && kept == cells[..keep] && rest == cells[i..n]
  }

  lemma LayoutNext(cells: seq<Stored>, n: nat, i: nat, keep: nat, kept: seq<Stored>, rest: seq<Stored>)
    requires Layout(cells, n, i, keep, kept, rest) && i < n
    ensures |rest| == n - i && rest[0] == cells[i] && Layout(cells, n, i + 1, keep, kept, rest[1..])
    ensures keep < |cells|
    ensures forall e :: Layout(cells[keep := e], n, i + 1, keep + 1, kept + [e], rest[1..])
  {
    assert cells[i..n][1..] == cells[i + 1..n];
    forall e ensures Layout(cells[keep := e], n, i + 1, keep + 1, kept + [e], rest[1..]) {
      assert cells[keep := e][..keep + 1] == cells[..keep] + [e];
      assert cells[keep := e][i + 1..n] == cells[i + 1..n];
    }
  }

  ghost predicate ArraysIn(rest: seq<Stored>, arrays: set<array<Holder>>) {
    forall k :: 0 <= k < |rest| ==> rest[k].heldBy.arr in arrays
  }

  lemma ArraysInTail(rest: seq<Stored>, arrays: set<array<Holder>>)
    requires ArraysIn(rest, arrays)
    ensures |rest| > 0 ==> rest[0].heldBy.arr in arrays && ArraysIn(rest[1..], arrays)
  {}

  /** Between two entries: cells laid out, kept entries repaired, the rest untouched, reports as on values. */
  ghost predicate Progress(a: array<Stored>, n: nat, i: nat, keep: nat, reports: seq<Report>,
                           kept: seq<Stored>, rest: seq<Stored>, es: seq<Entry>)
    reads a, (set s | s in kept :: s.heldBy.arr), set s | s in rest :: s.heldBy.arr
  {
    && |es| == n && i <= n && Layout(a[..], n, i, keep, kept, rest)
    && Untouched(rest, es[i..]) && Holding(kept, rest, Repair(es[..i]).0) && reports == Repair(es[..i]).1
  }

  /** Drop the next entry, whose pid or pgid is not positive. */
  lemma DropNext(a: array<Stored>, n: nat, i: nat, keep: nat, reports: seq<Report>,
                 kept: seq<Stored>, rest: seq<Stored>, es: seq<Entry>)
    requires Progress(a, n, i, keep, reports, kept, rest, es) && i < n && !(a[i].pid >= 1 && a[i].pgid >= 1)
    ensures |rest| > 0
    ensures Progress(a, n, i + 1, keep,
                     reports + [if a[i].pid < 1 then Report(a[i].sensorID, Pid, a[i].pid, true)
                                else Report(a[i].sensorID, Pgid, a[i].pgid, true)],
                     kept, rest[1..], es)
  {
    hide *;
    ProgressParts(a, n, i, keep, reports, kept, rest, es);
    LayoutNext(a[..], n, i, keep, kept, rest);
    SkipNext(rest, es[i..], kept, Repair(es[..i]).0);
    RepairSnoc(es, i);
    assert es[i..][0] == es[i] && es[i..][1..] == es[i + 1..] && a[..][i] == a[i];
    DropsOrKeeps(es[i]);
    ProgressFrom(a, n, i + 1, keep, Repair(es[..i + 1]).1, kept, rest[1..], es);
  }

  lemma ProgressParts(a: array<Stored>, n: nat, i: nat, keep: nat, reports: seq<Report>,
                      kept: seq<Stored>, rest: seq<Stored>, es: seq<Entry>)
    requires Progress(a, n, i, keep, reports, kept, rest, es)
    ensures |es| == n && i <= n <= a.Length && Layout(a[..], n, i, keep, kept, rest) && |rest| == n - i
    ensures Untouched(rest, es[i..]) && Holding(kept, rest, Repair(es[..i]).0) && reports == Repair(es[..i]).1
    ensures i < n ==> rest[0] == a[i]
  {}

  lemma ProgressFrom(a: array<Stored>, n: nat, i: nat, keep: nat, reports: seq<Report>,
                     kept: seq<Stored>, rest: seq<Stored>, es: seq<Entry>)
    requires |es| == n && i <= n && Layout(a[..], n, i, keep, kept, rest)
    requires Untouched(rest, es[i..]) && Holding(kept, rest, Repair(es[..i]).0) && reports == Repair(es[..i]).1
    ensures Progress(a, n, i, keep, reports, kept, rest, es)
  {}

  /** Repair the next entry and move it down to the end of the kept ones. */
  method KeepNext(a: array<Stored>, n: nat, i: nat, keep: nat, reports: seq<Report>,
                  ghost kept: seq<Stored>, ghost rest: seq<Stored>, ghost es: seq<Entry>)
    returns (reports': seq<Report>, ghost e: Stored)
    requires Progress(a, n, i, keep, reports, kept, rest, es) && i < n <= a.Length && a[i].pid >= 1 && a[i].pgid >= 1
    modifies a, a[i].heldBy.arr
    ensures |rest| > 0 && Progress(a, n, i + 1, keep + 1, reports', kept + [e], rest[1..], es)
  {
    hide *;
    ProgressParts(a, n, i, keep, reports, kept, rest, es);
    LayoutNext(a[..], n, i, keep, kept, rest);
    SkipNext(rest, es[i..], kept, Repair(es[..i]).0);
    RepairSnoc(es, i);
    assert es[i..][0] == es[i] && es[i..][1..] == es[i + 1..];
    DropsOrKeeps(es[i]);
    var e0, found := SanitizeNext(a[i], rest, es[i..], kept, Repair(es[..i]).0);
    Store(a, keep, e0, kept + [e0], rest[1..], Repair(es[..i + 1]).0, es[i + 1..]);
    e, reports' := e0, reports + found;
    ProgressFrom(a, n, i + 1, keep + 1, reports', kept + [e], rest[1..], es);
  }

  /** One turn of the loop. */
  method SanitizeAt(a: array<Stored>, n: nat, i: nat, keep: nat, reports: seq<Report>,
                    ghost kept: seq<Stored>, ghost rest: seq<Stored>, ghost es: seq<Entry>)
    returns (keep': nat, reports': seq<Report>, ghost kept': seq<Stored>)
    requires Progress(a, n, i, keep, reports, kept, rest, es) && i < n && |rest| > 0
    modifies a, rest[0].heldBy.arr
    ensures Progress(a, n, i + 1, keep', reports', kept', rest[1..], es)
  {
    hide *;
    ProgressParts(a, n, i, keep, reports, kept, rest, es);
    if a[i].pid < 1 {
      DropNext(a, n, i, keep, reports, kept, rest, es);
      return keep, reports + [Report(a[i].sensorID, Pid, a[i].pid, true)], kept;
    }
    if a[i].pgid < 1 {
      DropNext(a, n, i, keep, reports, kept, rest, es);
      return keep, reports + [Report(a[i].sensorID, Pgid, a[i].pgid, true)], kept;
    }
    ghost var e;
    reports', e := KeepNext(a, n, i, keep, reports, kept, rest, es);
    return keep + 1, reports', kept + [e];
  }

  method SanitizeAll(a: array<Stored>, n: nat) returns (keep: nat, reports: seq<Report>)
    requires Separate(a, n)
    modifies a, HolderArrays(a, n)
    ensures Separate(a, keep) && keep <= n
    ensures (Values(a, keep), reports) == Repair(old(Values(a, n)))
  {
    ghost var es, arrays := Values(a, n), HolderArrays(a, n);
    ghost var kept: seq<Stored>, rest := [], a[..n];
    keep, reports := 0, [];
    SanitizeStart(a, n, rest, es);
    assert ArraysIn(rest, arrays);
    hide *;
    for i := 0 to n
      invariant Progress(a, n, i, keep, reports, kept, rest, es) && |rest| == n - i
      invariant ArraysIn(rest, arrays)
    {
      ArraysInTail(rest, arrays);
      keep, reports, kept := SanitizeAt(a, n, i, keep, reports, kept, rest, es);
      rest := rest[1..];
    }
    SanitizeEnd(a, n, keep, reports, kept, rest, es);
  }

  lemma SanitizeStart(a: array<Stored>, n: nat, rest: seq<Stored>, es: seq<Entry>)
    requires Separate(a, n) && es == Values(a, n) && rest == a[..n]
    ensures Progress(a, n, 0, 0, [], [], rest, es)
  {
    RepairNone(es);
    assert Untouched(rest, es);
  }

  lemma SanitizeEnd(a: array<Stored>, n: nat, keep: nat, reports: seq<Report>,
                    kept: seq<Stored>, rest: seq<Stored>, es: seq<Entry>)
    requires Progress(a, n, n, keep, reports, kept, rest, es)
    ensures keep <= n && Separate(a, keep) && (Values(a, keep), reports) == Repair(es)
  {
    assert es[..n] == es;
    SeparateFromHolding(a, n, keep, kept, rest, es);
  }

  lemma RepairNone(es: seq<Entry>)
    ensures Repair(es[..0]) == ([], []) && Holding([], [], []) && es[0..] == es
    ensures forall rest :: Holding([], rest, [])
  {}

  lemma DropsOrKeeps(e: Entry)
    ensures Keeps(e) <==> e.pid >= 1 && e.pgid >= 1
    ensures e.pid < 1 ==> DropReport(e) == Report(e.sensorID, Pid, e.pid, true)
    ensures e.pid >= 1 && e.pgid < 1 ==> DropReport(e) == Report(e.sensorID, Pgid, e.pgid, true)
  {}

  lemma SeparateFromHolding(a: array<Stored>, n: nat, keep: nat, kept: seq<Stored>, rest: seq<Stored>, es: seq<Entry>)
    requires Layout(a[..], n, n, keep, kept, rest) && Holding(kept, rest, Repair(es).0)
    ensures keep <= n && Separate(a, keep) && Values(a, keep) == Repair(es).0
  {
    assert forall k :: 0 <= k < keep ==> a[k] == kept[k];
    assert Separate(a, keep);
    hide Repair;
  }
}
