/** Waiting for a spawned sensor to show itself ready: polling a growing log for its first decisive signal. */
module HealthGate {
  import opened Options
  import opened Jsons

  type Fields = map<string, Json>
  type Decoder = string -> Option<Fields>

  datatype Outcome = Ready(sig: Fields) | Failed(sig: Fields) | DiedSilently | TimedOut | StillWaiting

  /**
   * What one turn of the loop observes: the log, whether the process is dead, the log read again after that, and
   * the clock.
   */
  datatype Poll = Poll(log: Option<string>, dead: bool, lastLog: Option<string>, beforeDeadline: bool)

  const NOT_INDIVIDUAL: set<string> := {"envelope", "aggregate", "cascade", "started", "dep_started", "dep_attached",
    "dep_detached", "dep_start_failed", "failed"}

  predicate IsIndividualSignal(m: Fields) {
    && StringField(m, "verdict") != ""
    && ("metadata" in m && m["metadata"].Obj? ==> StringField(m["metadata"].fields, "kind") !in NOT_INDIVIDUAL)
  }

  /** The individual signal on a line, if it holds one. */
  function IndividualOn(decode: Decoder, line: string): Option<Fields> {
    if line == "" then None
    else match decode(line)
      case Some(m) => if IsIndividualSignal(m) then Some(m) else None
      case None => None
  }

  // ---- One read ------------------------------------------------------------------------------------

  ghost predicate HasVerdict(m: Fields) {
    "verdict" in m && m["verdict"].Str? && m["verdict"] != Str("")
  }

  /** One of the framework's own notices, by its kind. */
  ghost predicate IsNotice(m: Fields) {
    && "metadata" in m && m["metadata"].Obj? && "kind" in m["metadata"].fields
    && exists kind :: m["metadata"].fields["kind"] == Str(kind) &&
         (kind == "envelope" || kind == "aggregate" || kind == "cascade" || kind == "started" || kind == "failed" ||
          kind == "dep_started" || kind == "dep_attached" || kind == "dep_detached" || kind == "dep_start_failed")
  }

  /** Which lines count: a decoded object with a verdict that is no notice. */
  lemma IndividualIff(decode: Decoder, line: string)
    ensures match IndividualOn(decode, line)
            case Some(m) => decode(line) == Some(m) && HasVerdict(m) && !IsNotice(m)
            case None =>
              line == "" || decode(line) == None || !HasVerdict(decode(line).value) || IsNotice(decode(line).value)
  {
    var m := decode(line).GetOr(map[]);
    if "metadata" in m && m["metadata"].Obj? && "kind" in m["metadata"].fields {
      var kind := m["metadata"].fields["kind"];
      assert kind.Str? ==> kind == Str(kind.str);
    }
  }

  /** The first newline from `i` on, or the end. */
  function LineEnd(log: string, i: nat): (k: nat)
    requires i <= |log|
    ensures i <= k <= |log| && (k < |log| ==> log[k] == '\n') && forall x :: i <= x < k ==> log[x] != '\n'
    decreases |log| - i
  {
    if i < |log| && log[i] != '\n' then LineEnd(log, i + 1) else i
  }

  /** Line splitting drops one carriage return before the newline. */
  function DropCR(line: string): string {
    if line != "" && line[|line| - 1] == '\r' then line[..|line| - 1] else line
  }

  datatype Read = Read(sig: Option<Fields>, cursor: nat, seen: seq<string>)

  /** Reads from `pos` to the first individual signal; the cursor counts each line and one byte for its newline. */
  function ReadFrom(decode: Decoder, log: string, pos: nat, cursor: nat): Read
    decreases |log| - pos
  {
    if pos >= |log| then Read(None, cursor, [])
    else
      var end := LineEnd(log, pos);
      var line := DropCR(log[pos..end]);
      var sig := IndividualOn(decode, line);
      if sig.Some? then Read(sig, cursor + |line| + 1, [line])
      else
        var rest := ReadFrom(decode, log, end + 1, cursor + |line| + 1);
        rest.(seen := [line] + rest.seen)
  }

  function ReadNext(decode: Decoder, log: Option<string>, start: nat): Read {
    if log.None? then Read(None, start, []) else ReadFrom(decode, log.value, start, start)
  }

  method ReadNextIndividual(decode: Decoder, log: Option<string>, startOffset: nat)
    returns (sig: Option<Fields>, cursor: nat)
    ensures var r := ReadNext(decode, log, startOffset); sig == r.sig && cursor == r.cursor
  {
    hide *;
    if log.None? {
      NothingRead(decode, startOffset);
      return None, startOffset;
    }
    var pos := startOffset;
    cursor := startOffset;
    ReadOpened(decode, log.value, startOffset);
    while pos < |log.value|
      invariant Continues(decode, log, startOffset, pos, cursor)
      decreases |log.value| - pos
    {
      ReadStep(decode, log, startOffset, pos, cursor);
      var end := LineEnd(log.value, pos);
      var line := DropCR(log.value[pos..end]);
      cursor := cursor + |line| + 1;
      sig := IndividualOn(decode, line);
      if sig.Some? {
        return sig, cursor;
      }
      pos := end + 1;
    }
    ReadEnd(decode, log, startOffset, pos, cursor);
    sig := None;
  }

  /** What is left of a read has the result of the whole. */
  ghost predicate Continues(decode: Decoder, log: Option<string>, start: nat, pos: nat, cursor: nat) {
    log.Some? && var a, b := ReadNext(decode, log, start), ReadFrom(decode, log.value, pos, cursor);
      a.sig == b.sig && a.cursor == b.cursor
  }

  lemma NothingRead(decode: Decoder, start: nat)
    ensures ReadNext(decode, None, start) == Read(None, start, [])
  {}

  lemma ReadOpened(decode: Decoder, log: string, start: nat)
    ensures Continues(decode, Some(log), start, start, start)
  {}

  lemma ReadEnd(decode: Decoder, log: Option<string>, start: nat, pos: nat, cursor: nat)
    requires Continues(decode, log, start, pos, cursor) && pos >= |log.value|
    ensures ReadNext(decode, log, start).sig == None && ReadNext(decode, log, start).cursor == cursor
  {}

  lemma ReadStep(decode: Decoder, log: Option<string>, start: nat, pos: nat, cursor: nat)
    requires Continues(decode, log, start, pos, cursor) && pos < |log.value|
    ensures var end := LineEnd(log.value, pos);
            var line := DropCR(log.value[pos..end]);
            var sig := IndividualOn(decode, line);
            if sig.Some? then ReadNext(decode, log, start).sig == sig &&
               ReadNext(decode, log, start).cursor == cursor + |line| + 1
            else Continues(decode, log, start, end + 1, cursor + |line| + 1)
  {
    hide IndividualOn, DropCR, ReadNext;
  }

  // ---- The loop ------------------------------------------------------------------------------------

  /** What an individual signal decides, if its verdict is one of the four. */
  function Decide(sig: Fields): Option<Outcome> {
    var v := StringField(sig, "verdict");
    if v == "pass" || v == "warn" then Some(Ready(sig))
    else if v == "fail" || v == "error" then Some(Failed(sig))
    else None
  }

  datatype Trace = Trace(outcome: Outcome, seen: seq<string>)

  /** The gate over a finite sequence of turns, and all lines it reads in them. */
  function Wait(decode: Decoder, polls: seq<Poll>, cursor: nat): Trace {
    if polls == [] then Trace(StillWaiting, [])
    else
      var p, r := polls[0], ReadNext(decode, polls[0].log, cursor);
      if r.sig.Some? then
        match Decide(r.sig.value)
        case Some(o) => Trace(o, r.seen)
        case None => var rest := Wait(decode, polls[1..], r.cursor); rest.(seen := r.seen + rest.seen)
      else if p.dead then
        var last := ReadNext(decode, p.lastLog, r.cursor);
        Trace(if last.sig.Some? then Decide(last.sig.value).GetOr(DiedSilently) else DiedSilently, r.seen + last.seen)
      else if !p.beforeDeadline then Trace(TimedOut, r.seen)
      else var rest := Wait(decode, polls[1..], r.cursor); rest.(seen := r.seen + rest.seen)
  }

  method WaitForReady(decode: Decoder, polls: seq<Poll>) returns (o: Outcome)
    ensures o == Wait(decode, polls, 0).outcome
  {
    var cursor: nat := 0;
    assert polls[0..] == polls;
    for i := 0 to |polls|
      invariant Wait(decode, polls, 0).outcome == Wait(decode, polls[i..], cursor).outcome
    {
      hide Decide, ReadNext;
      assert polls[i..][1..] == polls[i + 1..];
      var sig, next := ReadNextIndividual(decode, polls[i].log, cursor);
      cursor := next;
      if sig.Some? {
        var d := Decide(sig.value);
        if d.Some? {
          return d.value;
        }
        continue;
      }
      if polls[i].dead {
        var last, _ := ReadNextIndividual(decode, polls[i].lastLog, cursor);
        if last.Some? {
          var d := Decide(last.value);
          if d.Some? {
            return d.value;
          }
        }
        return DiedSilently;
      }
      if !polls[i].beforeDeadline {
        return TimedOut;
      }
    }
    o := StillWaiting;
  }

  // ---- A log that grows by whole lines ---------------------------------------------------------------

  function Joined(lines: seq<string>): string {
    if lines == [] then "" else lines[0] + "\n" + Joined(lines[1..])
  }

  ghost predicate PlainLine(line: string) {
    '\n' !in line && DropCR(line) == line
  }

  ghost predicate PlainLines(lines: seq<string>) {
    forall i :: 0 <= i < |lines| ==> PlainLine(lines[i])
  }

  /** The byte offset of the boundary before line `k`. */
  function Boundary(lines: seq<string>, k: nat): nat
    requires k <= |lines|
  {
    if k == 0 then 0 else Boundary(lines, k - 1) + |lines[k - 1]| + 1
  }

  /** The log shows the first `n` lines, or cannot be opened. */
  ghost predicate Shows(lines: seq<string>, n: nat, log: Option<string>) {
    n <= |lines| && (log.Some? ==> log.value == Joined(lines[..n]))
  }

  lemma {:induction false} JoinedSnoc(lines: seq<string>, line: string)
    ensures Joined(lines + [line]) == Joined(lines) + line + "\n"
  {
    if lines == [] {
      assert Joined([line]) == line + "\n" + Joined([]);
    } else {
      assert (lines + [line])[1..] == lines[1..] + [line];
      JoinedSnoc(lines[1..], line);
      assert lines[0] + "\n" + (Joined(lines[1..]) + line + "\n") ==
             (lines[0] + "\n" + Joined(lines[1..])) + line + "\n";
    }
  }

  /** Where line `k` lies in the bytes of the log. */
  lemma {:induction false} LineBytes(lines: seq<string>, n: nat, k: nat)
    requires k < n <= |lines|
    ensures var log, a := Joined(lines[..n]), Boundary(lines, k);
            a + |lines[k]| < |log| && log[a..a + |lines[k]|] == lines[k] && log[a + |lines[k]|] == '\n'
    ensures |Joined(lines[..n])| == Boundary(lines, n)
    decreases n
  {
    var before, line := lines[..n - 1], lines[n - 1];
    assert lines[..n] == before + [line];
    JoinedSnoc(before, line);
    JoinedLength(lines, n - 1);
    if k < n - 1 {
      LineBytes(lines, n - 1, k);
      var log, shorter, a := Joined(lines[..n]), Joined(before), Boundary(lines, k);
      assert log == shorter + (line + "\n");
      assert log[a..a + |lines[k]|] == shorter[a..a + |lines[k]|];
    }
  }

  lemma {:induction false} JoinedLength(lines: seq<string>, n: nat)
    requires n <= |lines|
    ensures |Joined(lines[..n])| == Boundary(lines, n)
  {
    if n > 0 {
      JoinedLength(lines, n - 1);
      assert lines[..n] == lines[..n - 1] + [lines[n - 1]];
      JoinedSnoc(lines[..n - 1], lines[n - 1]);
    }
  }

  ghost predicate Silent(decode: Decoder, lines: seq<string>, lo: nat, hi: nat)
    requires hi <= |lines|
  {
    forall i :: lo <= i < hi ==> IndividualOn(decode, lines[i]) == None
  }

  /**
   * A read that starts on a line boundary reads every line up to the first individual signal, once, and stops on a
   * boundary.
   */
  lemma {:induction false} ReadIsWhole(decode: Decoder, lines: seq<string>, k: nat, n: nat) returns (e: nat)
    requires PlainLines(lines) && k <= n <= |lines|
    ensures k <= e <= n
    ensures var r := ReadFrom(decode, Joined(lines[..n]), Boundary(lines, k), Boundary(lines, k));
            && r.cursor == Boundary(lines, e) && r.seen == lines[k..e]
            && (r.sig.None? ==> e == n && Silent(decode, lines, k, n))
            && (r.sig.Some? ==> e > k && Silent(decode, lines, k, e - 1) && r.sig == IndividualOn(decode, lines[e - 1]))
    decreases n - k
  {
    hide *;
    JoinedLength(lines, n);
    if k == n {
      e := n;
      ReadNothing(decode, lines, n);
    } else {
      LineRead(lines, n, k);
      ReadLine(decode, Joined(lines[..n]), lines, k, lines[k], Boundary(lines, k));
      if IndividualOn(decode, lines[k]).Some? {
        e := k + 1;
        OneLine(decode, lines, k);
      } else {
        e := ReadIsWhole(decode, lines, k + 1, n);
        LineBefore(decode, lines, k, e);
      }
    }
  }

  // ---- Lines that end in a carriage return -----------------------------------------------------------

  predicate EndsInReturn(line: string) {
    line != "" && line[|line| - 1] == '\r'
  }

  function WithoutReturn(line: string): string {
    if EndsInReturn(line) then line[..|line| - 1] else line
  }

  /** How many of the lines from `k` to `e` end in a carriage return. */
  function Returns(lines: seq<string>, k: nat, e: nat): nat
    requires e <= |lines|
    decreases e - k
  {
    if k >= e then 0 else (if EndsInReturn(lines[k]) then 1 else 0) + Returns(lines, k + 1, e)
  }

  ghost predicate NoBreaks(lines: seq<string>) {
    forall i :: 0 <= i < |lines| ==> '\n' !in lines[i]
  }

  /**
   * A read from a line boundary reads whole lines, without their carriage returns; its cursor falls behind the bytes it
   * has read by one for each of them.
   */
  lemma {:induction false} CursorLags(decode: Decoder, lines: seq<string>, k: nat, n: nat, cursor: nat)
    returns (e: nat)
    requires NoBreaks(lines) && k <= n <= |lines|
    ensures k <= e <= n
    ensures var r := ReadFrom(decode, Joined(lines[..n]), Boundary(lines, k), cursor);
            && (r.sig.None? ==> e == n) && |r.seen| == e - k
            && (forall i :: 0 <= i < e - k ==> r.seen[i] == WithoutReturn(lines[k + i]))
            && r.cursor + Returns(lines, k, e) == cursor + Boundary(lines, e) - Boundary(lines, k)
    decreases n - k
  {
    hide *;
    JoinedLength(lines, n);
    if k == n {
      e := n;
      NothingLeft(decode, lines, n, cursor);
    } else {
      LineBytes(lines, n, k);
      LineWithoutReturn(Joined(lines[..n]), lines, k);
      var line := WithoutReturn(lines[k]);
      ReadLine(decode, Joined(lines[..n]), lines, k, line, cursor);
      if IndividualOn(decode, line).Some? {
        e := k + 1;
        OneReturn(lines, k);
      } else {
        e := CursorLags(decode, lines, k + 1, n, cursor + |line| + 1);
        ReturnBefore(lines, k, e);
      }
    }
  }

  lemma NothingLeft(decode: Decoder, lines: seq<string>, n: nat, cursor: nat)
    requires n <= |lines| && |Joined(lines[..n])| == Boundary(lines, n)
    ensures ReadFrom(decode, Joined(lines[..n]), Boundary(lines, n), cursor) == Read(None, cursor, [])
    ensures Returns(lines, n, n) == 0
  {}

  lemma OneReturn(lines: seq<string>, k: nat)
    requires k < |lines|
    ensures |WithoutReturn(lines[k])| + 1 + Returns(lines, k, k + 1) == Boundary(lines, k + 1) - Boundary(lines, k)
  {
    assert Returns(lines, k + 1, k + 1) == 0;
  }

  lemma ReturnBefore(lines: seq<string>, k: nat, e: nat)
    requires k < e <= |lines|
    ensures Returns(lines, k, e) == Returns(lines, k, k + 1) + Returns(lines, k + 1, e)
    ensures |WithoutReturn(lines[k])| + 1 + Returns(lines, k, k + 1) == Boundary(lines, k + 1) - Boundary(lines, k)
  {
    OneReturn(lines, k);
    assert Returns(lines, k + 1, k + 1) == 0;
  }

  lemma LineWithoutReturn(log: string, lines: seq<string>, k: nat)
    requires NoBreaks(lines) && k < |lines| && Boundary(lines, k) + |lines[k]| < |log|
    requires log[Boundary(lines, k)..Boundary(lines, k) + |lines[k]|] == lines[k]
    requires log[Boundary(lines, k) + |lines[k]|] == '\n'
    ensures LineEnd(log, Boundary(lines, k)) == Boundary(lines, k) + |lines[k]|
    ensures DropCR(log[Boundary(lines, k)..LineEnd(log, Boundary(lines, k))]) == WithoutReturn(lines[k])
  {
    LineEnds(log, Boundary(lines, k), lines[k]);
    assert DropCR(lines[k]) == WithoutReturn(lines[k]);
    hide LineEnd, DropCR, WithoutReturn;
  }

  /** The cursor stands where the next line begins exactly if no line that was read ends in a carriage return. */
  lemma CursorIffNoReturns(decode: Decoder, lines: seq<string>, k: nat, n: nat) returns (e: nat)
    requires NoBreaks(lines) && k <= n <= |lines|
    ensures k <= e <= n
    ensures var r := ReadFrom(decode, Joined(lines[..n]), Boundary(lines, k), Boundary(lines, k));
            && |r.seen| == e - k
            && (r.cursor == Boundary(lines, e) <==> forall i :: k <= i < e ==> !EndsInReturn(lines[i]))
  {
    e := CursorLags(decode, lines, k, n, Boundary(lines, k));
    NoReturnsIff(lines, k, e);
    hide ReadFrom, Returns, EndsInReturn;
  }

  /** A log of one line of three bytes: the cursor stops at the second. */
  lemma CursorLagsHere(decode: Decoder)
    requires decode("x") == None
    ensures ReadFrom(decode, "x\r\n", 0, 0).cursor == 2
  {
    var log, lines := "x\r\n", ["x\r"];
    assert Joined(lines[..1]) == log by { assert lines[1..] == [] && lines[..1] == lines; }
    assert Boundary(lines, 1) == 3;
    var e := CursorLags(decode, lines, 0, 1, 0);
    assert Returns(lines, 0, 1) == 1 + Returns(lines, 1, 1);
    assert IndividualOn(decode, "x") == None;
    hide IndividualOn;
  }

  lemma {:induction false} NoReturnsIff(lines: seq<string>, k: nat, e: nat)
    requires k <= e <= |lines|
    ensures Returns(lines, k, e) == 0 <==> forall i :: k <= i < e ==> !EndsInReturn(lines[i])
    decreases e - k
  {
    if k < e {
      NoReturnsIff(lines, k + 1, e);
    }
  }

  // ---- Lines without one -----------------------------------------------------------------------------

  lemma ReadNothing(decode: Decoder, lines: seq<string>, n: nat)
    requires n <= |lines| && |Joined(lines[..n])| == Boundary(lines, n)
    ensures ReadFrom(decode, Joined(lines[..n]), Boundary(lines, n), Boundary(lines, n)) ==
            Read(None, Boundary(lines, n), [])
    ensures lines[n..n] == [] && Silent(decode, lines, n, n)
  {}

  lemma OneLine(decode: Decoder, lines: seq<string>, k: nat)
    requires k < |lines|
    ensures lines[k..k + 1] == [lines[k]] && Silent(decode, lines, k, k)
  {}

  lemma LineBefore(decode: Decoder, lines: seq<string>, k: nat, e: nat)
    requires k < e <= |lines| && IndividualOn(decode, lines[k]) == None
    ensures [lines[k]] + lines[k + 1..e] == lines[k..e]
    ensures Silent(decode, lines, k, e) <==> Silent(decode, lines, k + 1, e)
    ensures k + 1 < e ==> (Silent(decode, lines, k, e - 1) <==> Silent(decode, lines, k + 1, e - 1))
  {
    hide IndividualOn;
  }

  lemma ReadLine(decode: Decoder, log: string, lines: seq<string>, k: nat, line: string, cursor: nat)
    requires k < |lines| && Boundary(lines, k) < |log| &&
             LineEnd(log, Boundary(lines, k)) == Boundary(lines, k) + |lines[k]|
    requires DropCR(log[Boundary(lines, k)..LineEnd(log, Boundary(lines, k))]) == line
    ensures var b, c, sig := Boundary(lines, k), Boundary(lines, k + 1), IndividualOn(decode, line);
            && c == b + |lines[k]| + 1
            && ReadFrom(decode, log, b, cursor) ==
               if sig.Some? then Read(sig, cursor + |line| + 1, [line])
               else var rest := ReadFrom(decode, log, c, cursor + |line| + 1); rest.(seen := [line] + rest.seen)
  {
    hide IndividualOn, DropCR, LineEnd;
  }

  lemma LineRead(lines: seq<string>, n: nat, k: nat)
    requires PlainLines(lines) && k < n <= |lines|
    ensures var log, a := Joined(lines[..n]), Boundary(lines, k);
            a < |log| && LineEnd(log, a) == a + |lines[k]| && DropCR(log[a..LineEnd(log, a)]) == lines[k]
  {
    hide *;
    LineBytes(lines, n, k);
    PlainAt(lines, k);
    LineEnds(Joined(lines[..n]), Boundary(lines, k), lines[k]);
  }

  lemma PlainAt(lines: seq<string>, k: nat)
    requires PlainLines(lines) && k < |lines|
    ensures '\n' !in lines[k] && DropCR(lines[k]) == lines[k]
  {
    assert PlainLine(lines[k]);
    hide DropCR;
  }

  lemma LineEnds(log: string, a: nat, line: string)
    requires a + |line| < |log| && log[a..a + |line|] == line && log[a + |line|] == '\n' && '\n' !in line
    ensures LineEnd(log, a) == a + |line|
  {
    forall x | a <= x < a + |line| ensures log[x] != '\n' {
      assert log[x] == log[a..a + |line|][x - a];
    }
    EndIs(log, a, a + |line|);
  }

  lemma {:induction false} EndIs(log: string, i: nat, k: nat)
    requires i <= k < |log| && log[k] == '\n' && forall x :: i <= x < k ==> log[x] != '\n'
    ensures LineEnd(log, i) == k
    decreases k - i
  {
    if i < k { EndIs(log, i + 1, k); }
  }

  // ---- What the gate answers -------------------------------------------------------------------------

  /**
   * Read by read, the log shows ever more whole lines: `ns[i]` of them in turn `i`, `ms[i]` after its process was
   * found dead.
   */
  ghost predicate Growing(lines: seq<string>, polls: seq<Poll>, ns: seq<nat>, ms: seq<nat>, k: nat) {
    && |ns| == |polls| == |ms| && PlainLines(lines)
    && (forall i :: 0 <= i < |polls| ==>
          k <= ns[i] <= ms[i] && Shows(lines, ns[i], polls[i].log) && Shows(lines, ms[i], polls[i].lastLog))
    && (forall i, j :: 0 <= i < j < |polls| ==> ms[i] <= ns[j])
  }

  /** The line holds no individual signal with one of the four verdicts. */
  predicate Undecided(decode: Decoder, line: string) {
    var sig := IndividualOn(decode, line);
    sig.Some? ==> StringField(sig.value, "verdict") !in {"pass", "warn", "fail", "error"}
  }

  ghost predicate AllUndecided(decode: Decoder, lines: seq<string>, lo: nat, hi: nat) {
    hi <= |lines| && forall i :: lo <= i < hi ==> Undecided(decode, lines[i])
  }

  /**
   * Where a wait that starts before line `k` ends: it has read the lines up to `e`, each once and in order. Ready
   * and failed come from the last of them and all before it were undecided. A timeout and a silent death leave all
   * of them undecided.
   */
  ghost predicate Answered(decode: Decoder, lines: seq<string>, k: nat, e: nat, t: Trace) {
    && k <= e <= |lines| && t.seen == lines[k..e]
    && match t.outcome
       case Ready(sig) => e > k && DecidedBy(decode, lines, e - 1, t.outcome) && AllUndecided(decode, lines, k, e - 1)
       case Failed(sig) => e > k && DecidedBy(decode, lines, e - 1, t.outcome) && AllUndecided(decode, lines, k, e - 1)
       case _ => AllUndecided(decode, lines, k, e)
  }

  ghost predicate DecidedBy(decode: Decoder, lines: seq<string>, i: nat, o: Outcome) {
    i < |lines| && IndividualOn(decode, lines[i]).Some? &&
    var sig := IndividualOn(decode, lines[i]).value;
    || (o == Ready(sig) && StringField(sig, "verdict") in {"pass", "warn"})
    || (o == Failed(sig) && StringField(sig, "verdict") in {"fail", "error"})
  }

  /** One read of the log, from boundary to boundary, in terms of lines. */
  lemma ReadShown(decode: Decoder, lines: seq<string>, n: nat, log: Option<string>, k: nat) returns (e: nat)
    requires PlainLines(lines) && Shows(lines, n, log) && k <= n
    ensures k <= e <= n
    ensures var r := ReadNext(decode, log, Boundary(lines, k));
            && r.cursor == Boundary(lines, e) && r.seen == lines[k..e]
            && (r.sig.None? ==>
                  Silent(decode, lines, k, e) && AllUndecided(decode, lines, k, e) && e == if log.Some? then n else k)
            && (r.sig.Some? ==> e > k && Silent(decode, lines, k, e - 1) && AllUndecided(decode, lines, k, e - 1)
                                && r.sig == IndividualOn(decode, lines[e - 1]))
  {
    if log.None? {
      e := k;
    } else {
      hide IndividualOn, Decide, ReadFrom;
      e := ReadIsWhole(decode, lines, k, n);
    }
  }

  lemma JoinAnswer(decode: Decoder, lines: seq<string>, k: nat, m: nat, e: nat, t: Trace)
    requires k <= m <= |lines| && AllUndecided(decode, lines, k, m) && Answered(decode, lines, m, e, t)
    ensures Answered(decode, lines, k, e, t.(seen := lines[k..m] + t.seen))
  {
    hide Undecided, DecidedBy;
    assert lines[k..m] + lines[m..e] == lines[k..e];
  }

  /** The turns of a wait that goes on, `cs[i]` being the line boundary before turn `i`. */
  ghost predicate Turns(decode: Decoder, lines: seq<string>, polls: seq<Poll>, cs: seq<nat>) {
    && 1 <= |cs| <= |polls| + 1
    && forall i :: 0 <= i < |cs| - 1 ==> Passes(decode, lines, polls[i], cs[i], cs[i + 1])
  }

  /**
   * The turn's read goes from one boundary to the other, and the wait goes on: the read has found an undecided
   * individual signal, or nothing from a live process in time.
   */
  ghost predicate Passes(decode: Decoder, lines: seq<string>, p: Poll, from: nat, to: nat) {
    from <= to <= |lines| &&
    var r := ReadNext(decode, p.log, Boundary(lines, from));
    && r.cursor == Boundary(lines, to)
    && if r.sig.Some? then Decide(r.sig.value) == None else !p.dead && p.beforeDeadline
  }

  /** What the gate answers after the read that follows a death. */
  function AfterDeath(last: Read): Outcome {
    if last.sig.Some? then Decide(last.sig.value).GetOr(DiedSilently) else DiedSilently
  }

  /**
   * The last turn `t` starts on the boundary `from` and gives the outcome: its own read goes to `m`, and the read after
   * death, if there is one, from there to `e`.
   */
  ghost predicate Ends(decode: Decoder, lines: seq<string>, polls: seq<Poll>, t: nat, from: nat, m: nat, e: nat,
                       o: Outcome)
  {
    if t == |polls| then o == StillWaiting
    else
      t < |polls| && from <= m <= e <= |lines| &&
      var p, r := polls[t], ReadNext(decode, polls[t].log, Boundary(lines, from));
      var last := ReadNext(decode, p.lastLog, Boundary(lines, m));
      && r.cursor == Boundary(lines, m)
      && if r.sig.Some? then Decide(r.sig.value) == Some(o) && m == e
         else if p.dead then last.cursor == Boundary(lines, e) && o == AfterDeath(last)
         else !p.beforeDeadline && o == TimedOut && m == e
  }

  /**
   * In terms of lines: a timeout has read everything the log shows, and the read after death that finds nothing
   * decisive has come to the end of the last log or to the first individual signal.
   */
  ghost predicate EndsShown(decode: Decoder, lines: seq<string>, polls: seq<Poll>, ns: seq<nat>, ms: seq<nat>,
                            t: nat, from: nat, m: nat, e: nat, o: Outcome)
  {
    match o
    case TimedOut => t < |polls| && ReadsAll(polls[t].log, ns, t, from, e)
    case DiedSilently =>
      && t < |polls| && e <= |lines| && ReadsAll(polls[t].log, ns, t, from, m)
      && if Silent(decode, lines, m, e) then ReadsAll(polls[t].lastLog, ms, t, m, e)
         else FirstIndividual(decode, lines, m, e)
    case _ => true
  }

  /** A read from `from` has come to the end of the log, or to nowhere if there was none to open. */
  ghost predicate ReadsAll(log: Option<string>, counts: seq<nat>, t: nat, from: nat, to: nat) {
    t < |counts| && to == if log.Some? then counts[t] else from
  }

  /** The line before `e` holds the first individual signal from `m` on. */
  ghost predicate FirstIndividual(decode: Decoder, lines: seq<string>, m: nat, e: nat) {
    m < e <= |lines| && Silent(decode, lines, m, e - 1) && IndividualOn(decode, lines[e - 1]).Some?
  }

  lemma {:induction false} WaitAnswers(decode: Decoder, lines: seq<string>, polls: seq<Poll>, ns: seq<nat>,
                                       ms: seq<nat>, k: nat)
    returns (e: nat, cs: seq<nat>, m: nat)
    requires Growing(lines, polls, ns, ms, k) && k <= |lines|
    ensures Answered(decode, lines, k, e, Wait(decode, polls, Boundary(lines, k)))
    ensures Turns(decode, lines, polls, cs) && cs[0] == k
    ensures var o, from := Wait(decode, polls, Boundary(lines, k)).outcome, cs[|cs| - 1];
            && Ends(decode, lines, polls, |cs| - 1, from, m, e, o)
            && EndsShown(decode, lines, polls, ns, ms, |cs| - 1, from, m, e, o)
    decreases |polls|
  {
    hide *;
    if polls == [] {
      NoTurn(decode, lines, k, ns, ms);
      return k, [k], k;
    }
    TurnShows(lines, polls, ns, ms, k);
    var p := polls[0];
    m := ReadShown(decode, lines, ns[0], p.log, k);
    WaitUnfold(decode, polls, Boundary(lines, k));
    var r := ReadNext(decode, p.log, Boundary(lines, k));
    LastTurn(decode, lines, polls, ns, k);
    if r.sig.None? { ReadToEnd(polls[0].log, ns, k, m); }
    if r.sig.Some? && Decide(r.sig.value).Some? {
      DecidedHere(decode, lines, k, m, r.sig.value);
      DecidesFinally(decode, lines, polls, ns, ms, k, m, r.sig.value);
      return m, [k], m;
    }
    if r.sig.Some? { UndecidedHere(decode, lines, k, m, r.sig.value); }
    if r.sig.None? && p.dead {
      e := ReadShown(decode, lines, ms[0], p.lastLog, m);
      var last := ReadNext(decode, p.lastLog, Boundary(lines, m));
      if last.sig.None? { ReadToEnd(polls[0].lastLog, ms, m, e); }
      LastRead(decode, lines, k, m, e, last);
      DiesFinally(decode, lines, polls, ns, ms, k, m, e, last);
      return e, [k], m;
    } else if r.sig.None? && !p.beforeDeadline {
      TimedOutHere(decode, lines, k, m);
      TimesOutFinally(decode, lines, polls, ns, ms, k, m);
      return m, [k], m;
    } else {
      LaterTurns(lines, polls, ns, ms, k, m);
      GoesOn(decode, lines, p, k, m);
      var rest;
      var c := m;
      e, rest, m := WaitAnswers(decode, lines, polls[1..], ns[1..], ms[1..], c);
      var t := Wait(decode, polls[1..], Boundary(lines, c));
      JoinAnswer(decode, lines, k, c, e, t);
      TurnBefore(decode, lines, polls, ns, ms, k, c, rest, m, e, t.outcome);
      cs := [k] + rest;
    }
  }

  lemma GoesOn(decode: Decoder, lines: seq<string>, p: Poll, k: nat, m: nat)
    requires k <= m <= |lines| && ReadNext(decode, p.log, Boundary(lines, k)).cursor == Boundary(lines, m)
    requires var sig := ReadNext(decode, p.log, Boundary(lines, k)).sig;
             if sig.Some? then Decide(sig.value) == None else !p.dead && p.beforeDeadline
    ensures Passes(decode, lines, p, k, m)
  {}

  lemma LastTurn(decode: Decoder, lines: seq<string>, polls: seq<Poll>, ns: seq<nat>, k: nat)
    ensures Turns(decode, lines, polls, [k])
  {}

  lemma ReadToEnd(log: Option<string>, counts: seq<nat>, from: nat, to: nat)
    requires counts != [] && to == if log.Some? then counts[0] else from
    ensures ReadsAll(log, counts, 0, from, to)
  {}

  lemma DecidesFinally(decode: Decoder, lines: seq<string>, polls: seq<Poll>, ns: seq<nat>, ms: seq<nat>, k: nat,
                       e: nat, sig: Fields)
    requires polls != [] && k <= e <= |lines| && Decide(sig).Some?
    requires
      var r := ReadNext(decode, polls[0].log, Boundary(lines, k));
      r.sig == Some(sig) && r.cursor == Boundary(lines, e)
    ensures Ends(decode, lines, polls, 0, k, e, e, Decide(sig).value)
    ensures EndsShown(decode, lines, polls, ns, ms, 0, k, e, e, Decide(sig).value)
  {}

  lemma DiesFinally(decode: Decoder, lines: seq<string>, polls: seq<Poll>, ns: seq<nat>, ms: seq<nat>,
                    k: nat, m: nat, e: nat, last: Read)
    requires polls != [] && polls[0].dead && k <= m <= e <= |lines| && ReadsAll(polls[0].log, ns, 0, k, m)
    requires
      var r := ReadNext(decode, polls[0].log, Boundary(lines, k));
      r.sig == None && r.cursor == Boundary(lines, m)
    requires last == ReadNext(decode, polls[0].lastLog, Boundary(lines, m)) && last.cursor == Boundary(lines, e)
    requires last.sig.None? ==> Silent(decode, lines, m, e) && ReadsAll(polls[0].lastLog, ms, 0, m, e)
    requires last.sig.Some? ==>
             m < e && Silent(decode, lines, m, e - 1) && last.sig == IndividualOn(decode, lines[e - 1])
    ensures Ends(decode, lines, polls, 0, k, m, e, AfterDeath(last))
    ensures EndsShown(decode, lines, polls, ns, ms, 0, k, m, e, AfterDeath(last))
  {
    hide IndividualOn, ReadNext;
    if last.sig.Some? { assert !Silent(decode, lines, m, e); }
  }

  lemma TimesOutFinally(decode: Decoder, lines: seq<string>, polls: seq<Poll>, ns: seq<nat>, ms: seq<nat>, k: nat,
                        e: nat)
    requires polls != [] && !polls[0].dead && !polls[0].beforeDeadline && ReadsAll(polls[0].log, ns, 0, k, e)
    requires k <= e <= |lines|
    requires
      var r := ReadNext(decode, polls[0].log, Boundary(lines, k));
      r.sig == None && r.cursor == Boundary(lines, e)
    ensures Ends(decode, lines, polls, 0, k, e, e, TimedOut)
    ensures EndsShown(decode, lines, polls, ns, ms, 0, k, e, e, TimedOut)
  {}

  lemma TurnBefore(decode: Decoder, lines: seq<string>, polls: seq<Poll>, ns: seq<nat>, ms: seq<nat>, k: nat, c: nat,
                   rest: seq<nat>, m: nat, e: nat, o: Outcome)
    requires polls != [] && |ns| == |polls| == |ms| && Passes(decode, lines, polls[0], k, c)
    requires Turns(decode, lines, polls[1..], rest) && rest[0] == c
    requires Ends(decode, lines, polls[1..], |rest| - 1, rest[|rest| - 1], m, e, o)
    requires EndsShown(decode, lines, polls[1..], ns[1..], ms[1..], |rest| - 1, rest[|rest| - 1], m, e, o)
    ensures var cs := [k] + rest;
            && Turns(decode, lines, polls, cs) && cs[0] == k
            && Ends(decode, lines, polls, |cs| - 1, cs[|cs| - 1], m, e, o)
            && EndsShown(decode, lines, polls, ns, ms, |cs| - 1, cs[|cs| - 1], m, e, o)
  {
    hide FirstIndividual, Silent, ReadNext, Decide, AfterDeath, Passes;
    var cs := [k] + rest;
    forall i | 0 <= i < |cs| - 1 ensures Passes(decode, lines, polls[i], cs[i], cs[i + 1]) {
      if i > 0 {
        assert Passes(decode, lines, polls[1..][i - 1], rest[i - 1], rest[i - 1 + 1]);
      }
    }
  }

  lemma NoTurn(decode: Decoder, lines: seq<string>, k: nat, ns: seq<nat>, ms: seq<nat>)
    requires k <= |lines|
    ensures Answered(decode, lines, k, k, Wait(decode, [], Boundary(lines, k)))
    ensures Turns(decode, lines, [], [k]) && Ends(decode, lines, [], 0, k, k, k, StillWaiting)
    ensures EndsShown(decode, lines, [], ns, ms, 0, k, k, k, StillWaiting)
    ensures Wait(decode, [], Boundary(lines, k)).outcome == StillWaiting
  {}

  lemma TurnShows(lines: seq<string>, polls: seq<Poll>, ns: seq<nat>, ms: seq<nat>, k: nat)
    requires Growing(lines, polls, ns, ms, k) && polls != []
    ensures |ns| == |ms| == |polls| && PlainLines(lines) && k <= ns[0] <= ms[0] <= |lines|
    ensures Shows(lines, ns[0], polls[0].log) && Shows(lines, ms[0], polls[0].lastLog)
  {}

  lemma LaterTurns(lines: seq<string>, polls: seq<Poll>, ns: seq<nat>, ms: seq<nat>, k: nat, m: nat)
    requires Growing(lines, polls, ns, ms, k) && polls != [] && |ns| == |ms| == |polls| && m <= ns[0]
    ensures Growing(lines, polls[1..], ns[1..], ms[1..], m)
  {
    hide Shows, PlainLines;
  }

  lemma WaitUnfold(decode: Decoder, polls: seq<Poll>, cursor: nat)
    requires polls != []
    ensures var p, r := polls[0], ReadNext(decode, polls[0].log, cursor);
            var rest := Wait(decode, polls[1..], r.cursor);
            var later := rest.(seen := r.seen + rest.seen);
            var last := ReadNext(decode, p.lastLog, r.cursor);
            Wait(decode, polls, cursor) ==
            if r.sig.Some? then if Decide(r.sig.value).Some? then Trace(Decide(r.sig.value).value, r.seen) else later
            else if p.dead then Trace(AfterDeath(last), r.seen + last.seen)
            else if p.beforeDeadline then later else Trace(TimedOut, r.seen)
  {
    hide ReadNext, Decide;
  }

  lemma DecidedHere(decode: Decoder, lines: seq<string>, k: nat, m: nat, sig: Fields)
    requires k < m <= |lines| && AllUndecided(decode, lines, k, m - 1) &&
             Some(sig) == IndividualOn(decode, lines[m - 1]) && Decide(sig).Some?
    ensures Answered(decode, lines, k, m, Trace(Decide(sig).value, lines[k..m]))
  {
    hide IndividualOn;
  }

  lemma UndecidedHere(decode: Decoder, lines: seq<string>, k: nat, m: nat, sig: Fields)
    requires k < m <= |lines| && AllUndecided(decode, lines, k, m - 1) &&
             Some(sig) == IndividualOn(decode, lines[m - 1]) && Decide(sig).None?
    ensures AllUndecided(decode, lines, k, m)
  {
    hide IndividualOn;
  }

  lemma TimedOutHere(decode: Decoder, lines: seq<string>, k: nat, m: nat)
    requires k <= m <= |lines| && AllUndecided(decode, lines, k, m)
    ensures Answered(decode, lines, k, m, Trace(TimedOut, lines[k..m]))
  {}

  lemma LastRead(decode: Decoder, lines: seq<string>, k: nat, m: nat, e: nat, last: Read)
    requires k <= m <= e <= |lines| && AllUndecided(decode, lines, k, m) && last.seen == lines[m..e]
    requires last.sig.None? ==> AllUndecided(decode, lines, m, e)
    requires last.sig.Some? ==>
             e > m && AllUndecided(decode, lines, m, e - 1) && last.sig == IndividualOn(decode, lines[e - 1])
    ensures Answered(decode, lines, k, e,
                     Trace(AfterDeath(last), lines[k..m] + last.seen))
  {
    assert lines[k..m] + lines[m..e] == lines[k..e];
    hide IndividualOn;
  }

  // ---- The read after death ----------------------------------------------------------------------------

  /**
   * The read after death looks at one individual signal only: with `i` the first decisive line it could find, it
   * finds it exactly when no individual signal of unknown verdict stands before it.
   */
  lemma LastReadDecidesIff(decode: Decoder, lines: seq<string>, k: nat, n: nat, i: nat)
    requires PlainLines(lines) && k <= i < n <= |lines|
    requires AllUndecided(decode, lines, k, i) && !Undecided(decode, lines[i])
    ensures var sig := ReadNext(decode, Some(Joined(lines[..n])), Boundary(lines, k)).sig;
            (sig.Some? && Decide(sig.value).Some?) <==> Silent(decode, lines, k, i)
  {
    hide IndividualOn, ReadFrom;
    var e := ReadIsWhole(decode, lines, k, n);
  }

  /**
   * The wait comes to a turn, starting on the last boundary of `cs`, that finds the process dead after a read that went
   * to the boundary `m` and found nothing.
   */
  ghost predicate DeadTurn(decode: Decoder, lines: seq<string>, polls: seq<Poll>, cs: seq<nat>, m: nat) {
    && Turns(decode, lines, polls, cs) && |cs| <= |polls|
    && polls[|cs| - 1].dead && cs[|cs| - 1] <= m <= |lines|
    && var r := ReadNext(decode, polls[|cs| - 1].log, Boundary(lines, cs[|cs| - 1]));
       r.sig == None && r.cursor == Boundary(lines, m)
  }

  /** Every silent death comes from such a turn. */
  lemma SilentDeathIsDeadTurn(decode: Decoder, lines: seq<string>, polls: seq<Poll>, ns: seq<nat>, ms: seq<nat>, k: nat)
    returns (cs: seq<nat>, m: nat)
    requires Growing(lines, polls, ns, ms, k) && k <= |lines|
    requires Wait(decode, polls, Boundary(lines, k)).outcome == DiedSilently
    ensures DeadTurn(decode, lines, polls, cs, m) && cs[0] == k
  {
    var e;
    e, cs, m := WaitAnswers(decode, lines, polls, ns, ms, k);
    hide ReadNext, Wait, Growing;
  }

  /**
   * When a wait comes to a dead turn and the last log shows a decisive line, `i` being the first: the gate misses it,
   * answering with a silent death, if and only if an individual signal of unknown verdict stands between the boundary
   * `m`, where the read after death begins, and that line.
   */
  lemma {:induction false} SilentDeathMissesIff(decode: Decoder, lines: seq<string>, polls: seq<Poll>, ns: seq<nat>,
                                                ms: seq<nat>, cs: seq<nat>, m: nat, i: nat)
    requires DeadTurn(decode, lines, polls, cs, m) && Growing(lines, polls, ns, ms, cs[0])
    requires polls[|cs| - 1].lastLog.Some? && cs[0] <= i < ms[|cs| - 1] <= |lines|
    requires AllUndecided(decode, lines, cs[0], i) && !Undecided(decode, lines[i])
    ensures m <= i
    ensures Wait(decode, polls, Boundary(lines, cs[0])).outcome == DiedSilently <==> !Silent(decode, lines, m, i)
    decreases |polls|
  {
    var k := cs[0];
    hide *;
    DeadTurnParts(decode, lines, polls, cs, m);
    TurnShows(lines, polls, ns, ms, k);
    WaitUnfold(decode, polls, Boundary(lines, k));
    var c := ReadShown(decode, lines, ns[0], polls[0].log, k);
    if |cs| == 1 {
      SameBoundary(lines, c, m);
      DecisiveLater(decode, lines, k, c, i);
      LastShown(lines, ms[0], polls[0].lastLog);
      LastReadDecidesIff(decode, lines, m, ms[0], i);
      DecisionIsNoDeath(ReadNext(decode, polls[0].lastLog, Boundary(lines, m)));
    } else {
      FirstPasses(decode, lines, polls, cs, m);
      SameBoundary(lines, c, cs[1]);
      var sig := ReadNext(decode, polls[0].log, Boundary(lines, k)).sig;
      if sig.Some? { UndecidedHere(decode, lines, k, c, sig.value); }
      DecisiveLater(decode, lines, k, c, i);
      LaterTurns(lines, polls, ns, ms, k, c);
      UndecidedLater(decode, lines, k, c, i);
      SilentDeathMissesIff(decode, lines, polls[1..], ns[1..], ms[1..], cs[1..], m, i);
    }
  }

  lemma DeadTurnParts(decode: Decoder, lines: seq<string>, polls: seq<Poll>, cs: seq<nat>, m: nat)
    requires DeadTurn(decode, lines, polls, cs, m)
    ensures 1 <= |cs| <= |polls| && m <= |lines| && cs[0] <= |lines|
    ensures |cs| == 1 ==>
              && polls[0].dead && cs[0] <= m
              && ReadNext(decode, polls[0].log, Boundary(lines, cs[0])).sig == None
              && ReadNext(decode, polls[0].log, Boundary(lines, cs[0])).cursor == Boundary(lines, m)
  {
    hide ReadNext, Decide;
    if |cs| > 1 { assert Passes(decode, lines, polls[0], cs[0], cs[0 + 1]); }
  }

  lemma FirstPasses(decode: Decoder, lines: seq<string>, polls: seq<Poll>, cs: seq<nat>, m: nat)
    requires DeadTurn(decode, lines, polls, cs, m) && |cs| > 1
    ensures cs[0] <= cs[1] <= |lines|
    ensures var r := ReadNext(decode, polls[0].log, Boundary(lines, cs[0]));
            && r.cursor == Boundary(lines, cs[1])
            && if r.sig.Some? then Decide(r.sig.value) == None else !polls[0].dead && polls[0].beforeDeadline
    ensures DeadTurn(decode, lines, polls[1..], cs[1..], m)
  {
    assert Passes(decode, lines, polls[0], cs[0], cs[0 + 1]);
    hide ReadNext, Decide;
    forall i | 0 <= i < |cs[1..]| - 1 ensures Passes(decode, lines, polls[1..][i], cs[1..][i], cs[1..][i + 1]) {
      assert Passes(decode, lines, polls[i + 1], cs[i + 1], cs[i + 1 + 1]);
    }
    hide Passes;
  }

  lemma {:induction false} BoundaryGrows(lines: seq<string>, a: nat, b: nat)
    requires a < b <= |lines|
    ensures Boundary(lines, a) < Boundary(lines, b)
  {
    if a < b - 1 { BoundaryGrows(lines, a, b - 1); }
  }

  lemma SameBoundary(lines: seq<string>, a: nat, b: nat)
    requires a <= |lines| && b <= |lines| && Boundary(lines, a) == Boundary(lines, b)
    ensures a == b
  {
    if a < b { BoundaryGrows(lines, a, b); } else if b < a { BoundaryGrows(lines, b, a); }
  }

  /** A decisive line lies behind everything that was read without a decision. */
  lemma DecisiveLater(decode: Decoder, lines: seq<string>, k: nat, c: nat, i: nat)
    requires k <= i < |lines| && AllUndecided(decode, lines, k, c) && !Undecided(decode, lines[i])
    ensures c <= i
  {}

  lemma UndecidedLater(decode: Decoder, lines: seq<string>, k: nat, c: nat, i: nat)
    requires k <= c <= i && AllUndecided(decode, lines, k, i)
    ensures AllUndecided(decode, lines, c, i)
  {}

  lemma LastShown(lines: seq<string>, n: nat, log: Option<string>)
    requires Shows(lines, n, log) && log.Some?
    ensures n <= |lines| && log == Some(Joined(lines[..n]))
  {}

  lemma DecisionIsNoDeath(last: Read)
    ensures AfterDeath(last) == DiedSilently <==> !(last.sig.Some? && Decide(last.sig.value).Some?)
  {}

  const ODD: Fields := map["verdict" := Str("odd")]
  const GOOD: Fields := map["verdict" := Str("pass")]

  function Example(line: string): Option<Fields> {
    if line == "a" then Some(ODD) else if line == "b" then Some(GOOD) else None
  }

  /** A process that has logged a passing signal before it died can still be reported as silently dead. */
  lemma SilentDeathCanMiss()
    ensures var lines := ["a", "b"];
            var polls := [Poll(None, true, Some(Joined(lines[..2])), true)];
            && Growing(lines, polls, [0], [2], 0)
            && Wait(Example, polls, 0).outcome == DiedSilently && DecidedBy(Example, lines, 1, Ready(GOOD))
  {
    var lines := ["a", "b"];
    assert PlainLine(lines[0]) && PlainLine(lines[1]);
    assert StringField(ODD, "verdict") == "odd" && StringField(GOOD, "verdict") == "pass";
    assert IndividualOn(Example, lines[0]) == Some(ODD) && IndividualOn(Example, lines[1]) == Some(GOOD);
    assert Decide(ODD) == None;
    hide Decide, IndividualOn, ReadFrom, PlainLine, Joined;
    var e := ReadIsWhole(Example, lines, 0, 2);
    assert Boundary(lines, 0) == 0;
  }
}
