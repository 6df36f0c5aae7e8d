/** Draining a subprocess: two scanners, a bounded channel, a closer and the loop that collects individual signals. */
module Stream {
  import opened Options

  type Line = string
  /** An individual signal in its encoded form. */
  type Signal = string

  const CHANNEL_CAP: nat := 64
  const EXCERPT_CAP: nat := 4096

  datatype Side = Stdout | Stderr

  /** Where a scanner is with line `pos`; a matched line has been counted before its signal is sent. */
  datatype At = Scanning | Logged | Captured | Sending(sig: Signal) | Done

  datatype Scanner = Scanner(lines: seq<Line>, pos: nat, at: At)

  datatype Config = Config(stdout: seq<Line>, stderr: seq<Line>, matchLine: Line -> Option<Signal>,
                           valid: Signal -> bool)

  datatype State = State(
    out: Scanner,
    err: Scanner,
    raw: seq<Line>,
    stdoutBuf: string,
    stderrBuf: string,
    channel: seq<Signal>,
    closed: bool,
    received: seq<Signal>,
    individuals: seq<Signal>,
    finished: bool
  )

  datatype Step =
    | Log(side: Side) | Capture(side: Side) | Match(side: Side) | Send(side: Side) | EndOfFile(side: Side)
    | Close | Receive | Stop

  function Initial(c: Config): State {
    State(Scanner(c.stdout, 0, Scanning), Scanner(c.stderr, 0, Scanning), [], "", "", [], false, [], [], false)
  }

  function Get(s: State, side: Side): Scanner {
    if side.Stdout? then s.out else s.err
  }

  function Put(s: State, side: Side, sc: Scanner): State {
    if side.Stdout? then s.(out := sc) else s.(err := sc)
  }

  predicate Enabled(s: State, t: Step) {
    match t
    case Log(d) => Get(s, d).at.Scanning? && Get(s, d).pos < |Get(s, d).lines|
    case Capture(d) => Get(s, d).at.Logged? && Get(s, d).pos < |Get(s, d).lines|
    case Match(d) => Get(s, d).at.Captured? && Get(s, d).pos < |Get(s, d).lines|
    case Send(d) => Get(s, d).at.Sending? && |s.channel| < CHANNEL_CAP
    case EndOfFile(d) => Get(s, d).at.Scanning? && Get(s, d).pos == |Get(s, d).lines|
    case Close => s.out.at.Done? && s.err.at.Done? && !s.closed
    case Receive => s.channel != [] && !s.finished
    case Stop => s.closed && s.channel == [] && !s.finished
  }

  /** The excerpt takes whole lines while they fit, then what room is left of one line, then nothing. */
  function Excerpt(buf: string, line: Line): (r: string)
    requires |buf| <= EXCERPT_CAP
    ensures buf <= r && |r| <= EXCERPT_CAP
  {
    var remaining := EXCERPT_CAP - |buf|;
    if remaining == 0 then buf
    else if |line| + 1 <= remaining then buf + line + "\n"
    else buf + line[..remaining]
  }

  function Next(c: Config, s: State, t: Step): State
    requires Enabled(s, t) && |s.stderrBuf| <= EXCERPT_CAP
  {
    match t
    case Log(d) =>
      var sc := Get(s, d);
      Put(s, d, sc.(at := Logged)).(raw := s.raw + [sc.lines[sc.pos]])
    case Capture(d) =>
      var sc := Get(s, d);
      var s1 := Put(s, d, sc.(at := Captured));
      if d.Stdout? then s1.(stdoutBuf := s.stdoutBuf + sc.lines[sc.pos] + "\n")
         else s1.(stderrBuf := Excerpt(s.stderrBuf, sc.lines[sc.pos]))
    case Match(d) =>
      var sc := Get(s, d);
      Put(s, d, sc.(pos := sc.pos + 1,
        at := match c.matchLine(sc.lines[sc.pos]) case Some(x) => Sending(x) case None => Scanning))
    case Send(d) =>
      var sc := Get(s, d);
      Put(s, d, sc.(at := Scanning)).(channel := s.channel + [sc.at.sig])
    case EndOfFile(d) => Put(s, d, Get(s, d).(at := Done))
    case Close => s.(closed := true)
    case Receive =>
      var x := s.channel[0];
      s.(channel := s.channel[1..], received := s.received + [x],
         individuals := if c.valid(x) then s.individuals + [x] else s.individuals)
    case Stop => s.(finished := true)
  }

  // ---- What the collected data is ----------------------------------------------------------------

  /** `m` interleaves `a` and `b`, each in its own order, losing and repeating nothing. */
  ghost predicate IsMerge<T(!new)>(m: seq<T>, a: seq<T>, b: seq<T>) {
    if m == [] then a == [] && b == []
    else
      var n := |m| - 1;
      || (a != [] && a[|a| - 1] == m[n] && IsMerge(m[..n], a[..|a| - 1], b))
      || (b != [] && b[|b| - 1] == m[n] && IsMerge(m[..n], a, b[..|b| - 1]))
  }

  lemma MergeAppend<T(!new)>(m: seq<T>, a: seq<T>, b: seq<T>, x: T)
    requires IsMerge(m, a, b)
    ensures IsMerge(m + [x], a + [x], b) && IsMerge(m + [x], a, b + [x])
  {
    assert (m + [x])[..|m|] == m && (a + [x])[..|a|] == a && (b + [x])[..|b|] == b;
  }

  lemma LastCounts<T(!new)>(s: seq<T>)
    requires s != []
    ensures multiset(s) == multiset(s[..|s| - 1]) + multiset{s[|s| - 1]}
  {
    assert s == s[..|s| - 1] + [s[|s| - 1]];
  }

  lemma {:induction false} MergeKeepsAll<T(!new)>(m: seq<T>, a: seq<T>, b: seq<T>)
    requires IsMerge(m, a, b)
    ensures multiset(m) == multiset(a) + multiset(b) && |m| == |a| + |b|
  {
    if m != [] {
      var n := |m| - 1;
      LastCounts(m);
      if a != [] && a[|a| - 1] == m[n] && IsMerge(m[..n], a[..|a| - 1], b) {
        LastCounts(a);
        MergeKeepsAll(m[..n], a[..|a| - 1], b);
      } else {
        LastCounts(b);
        MergeKeepsAll(m[..n], a, b[..|b| - 1]);
      }
    }
  }

  /** The signals the lines give rise to, in order. */
  function Matches(matchLine: Line -> Option<Signal>, lines: seq<Line>): seq<Signal> {
    if lines == [] then []
    else
      var n := |lines| - 1;
      Matches(matchLine, lines[..n]) + match matchLine(lines[n]) case Some(x) => [x] case None => []
  }

  function Joined(lines: seq<Line>): string {
    if lines == [] then "" else Joined(lines[..|lines| - 1]) + lines[|lines| - 1] + "\n"
  }

  function Filter(xs: seq<Signal>, p: Signal -> bool): seq<Signal> {
    if xs == [] then []
    else Filter(xs[..|xs| - 1], p) + if p(xs[|xs| - 1]) then [xs[|xs| - 1]] else []
  }

  function Capped(t: string): string {
    if |t| <= EXCERPT_CAP then t else t[..EXCERPT_CAP]
  }

  /** Capping line by line is the same as capping everything at the end. */
  lemma ExcerptIsCapped(lines: seq<Line>, line: Line)
    ensures Excerpt(Capped(Joined(lines)), line) == Capped(Joined(lines + [line]))
  {
    var t := Joined(lines);
    assert (lines + [line])[..|lines|] == lines;
    var all := t + line + "\n";
    assert Joined(lines + [line]) == all;
    hide Joined;
    if |t| >= EXCERPT_CAP {
      assert all[..EXCERPT_CAP] == t[..EXCERPT_CAP];
    } else if |all| > EXCERPT_CAP {
      assert all[..EXCERPT_CAP] == t + line[..EXCERPT_CAP - |t|];
    }
  }

  lemma {:induction false} FilterAll(xs: seq<Signal>, p: Signal -> bool)
    requires forall x :: p(x)
    ensures Filter(xs, p) == xs
  {
    if xs != [] {
      FilterAll(xs[..|xs| - 1], p);
      assert xs == xs[..|xs| - 1] + [xs[|xs| - 1]];
    }
  }

  // ---- The invariant -------------------------------------------------------------------------------

  ghost predicate ScannerOk(c: Config, sc: Scanner, lines: seq<Line>) {
    && sc.lines == lines && sc.pos <= |lines|
    && (sc.at.Logged? || sc.at.Captured? ==> sc.pos < |lines|)
    && (sc.at.Sending? ==> sc.pos > 0 && c.matchLine(lines[sc.pos - 1]) == Some(sc.at.sig))
    && (sc.at.Done? ==> sc.pos == |lines|)
  }

  function Upto(lines: seq<Line>, n: nat): seq<Line> {
    if n <= |lines| then lines[..n] else lines
  }

  /** The lines a scanner has written to the raw log and captured, and the signals it has passed on. */
  function LoggedBy(sc: Scanner): seq<Line> {
    Upto(sc.lines, if sc.at.Logged? || sc.at.Captured? then sc.pos + 1 else sc.pos)
  }

  function CapturedBy(sc: Scanner): seq<Line> {
    Upto(sc.lines, if sc.at.Captured? then sc.pos + 1 else sc.pos)
  }

  function SentBy(c: Config, sc: Scanner): seq<Signal> {
    Matches(c.matchLine, Upto(sc.lines, if sc.at.Sending? && sc.pos > 0 then sc.pos - 1 else sc.pos))
  }

  ghost predicate Inv(c: Config, s: State) {
    && ScannerOk(c, s.out, c.stdout) && ScannerOk(c, s.err, c.stderr)
    && IsMerge(s.raw, LoggedBy(s.out), LoggedBy(s.err))
    && s.stdoutBuf == Joined(CapturedBy(s.out))
    && s.stderrBuf == Capped(Joined(CapturedBy(s.err)))
    && IsMerge(s.received + s.channel, SentBy(c, s.out), SentBy(c, s.err))
    && s.individuals == Filter(s.received, c.valid)
    && |s.channel| <= CHANNEL_CAP && |s.stderrBuf| <= EXCERPT_CAP
    && (s.closed ==> s.out.at.Done? && s.err.at.Done?)
    && (s.finished ==> s.closed && s.channel == [])
  }

  lemma InvStart(c: Config)
    ensures Inv(c, Initial(c))
  {
    assert c.stdout[..0] == [] && c.stderr[..0] == [];
  }

  lemma UptoNext(lines: seq<Line>, n: nat)
    requires n < |lines|
    ensures Upto(lines, n + 1) == Upto(lines, n) + [lines[n]]
  {}

  lemma MatchesNext(matchLine: Line -> Option<Signal>, lines: seq<Line>, line: Line)
    ensures Matches(matchLine, lines + [line]) ==
            Matches(matchLine, lines) + match matchLine(line) case Some(x) => [x] case None => []
  {
    assert (lines + [line])[..|lines|] == lines;
  }

  lemma JoinedNext(lines: seq<Line>, line: Line)
    ensures Joined(lines + [line]) == Joined(lines) + line + "\n"
  {
    assert (lines + [line])[..|lines|] == lines;
  }

  // What each step of a scanner adds to what it has logged, captured and sent.

  lemma LogEffect(c: Config, sc: Scanner, lines: seq<Line>)
    requires ScannerOk(c, sc, lines) && sc.at.Scanning? && sc.pos < |sc.lines|
    ensures var n := sc.(at := Logged);
            ScannerOk(c, n, lines) && LoggedBy(n) == LoggedBy(sc) + [sc.lines[sc.pos]] &&
              CapturedBy(n) == CapturedBy(sc) && SentBy(c, n) == SentBy(c, sc)
  {
    hide Upto, Matches;
    UptoNext(sc.lines, sc.pos);
  }

  lemma CaptureEffect(c: Config, sc: Scanner, lines: seq<Line>)
    requires ScannerOk(c, sc, lines) && sc.at.Logged?
    ensures var n := sc.(at := Captured);
            && sc.pos < |sc.lines| && ScannerOk(c, n, lines) && LoggedBy(n) == LoggedBy(sc) &&
               SentBy(c, n) == SentBy(c, sc)
            && CapturedBy(n) == CapturedBy(sc) + [sc.lines[sc.pos]]
  {
    hide Upto, Matches;
    UptoNext(sc.lines, sc.pos);
  }

  lemma MatchEffect(c: Config, sc: Scanner, lines: seq<Line>)
    requires ScannerOk(c, sc, lines) && sc.at.Captured?
    ensures sc.pos < |sc.lines|
    ensures var n := sc.(pos := sc.pos + 1,
            at := match c.matchLine(sc.lines[sc.pos]) case Some(x) => Sending(x) case None => Scanning);
            ScannerOk(c, n, lines) && LoggedBy(n) == LoggedBy(sc) && CapturedBy(n) == CapturedBy(sc) &&
              SentBy(c, n) == SentBy(c, sc)
  {
    hide Upto, Matches;
    UptoNext(sc.lines, sc.pos);
    MatchesNext(c.matchLine, Upto(sc.lines, sc.pos), sc.lines[sc.pos]);
    assert Matches(c.matchLine, Upto(sc.lines, sc.pos)) + [] == Matches(c.matchLine, Upto(sc.lines, sc.pos));
  }

  lemma SendEffect(c: Config, sc: Scanner, lines: seq<Line>)
    requires ScannerOk(c, sc, lines) && sc.at.Sending?
    ensures var n := sc.(at := Scanning);
            ScannerOk(c, n, lines) && LoggedBy(n) == LoggedBy(sc) && CapturedBy(n) == CapturedBy(sc) &&
              SentBy(c, n) == SentBy(c, sc) + [sc.at.sig]
  {
    hide Upto, Matches;
    UptoNext(sc.lines, sc.pos - 1);
    MatchesNext(c.matchLine, Upto(sc.lines, sc.pos - 1), sc.lines[sc.pos - 1]);
  }

  lemma EndEffect(c: Config, sc: Scanner, lines: seq<Line>)
    requires ScannerOk(c, sc, lines) && sc.at.Scanning? && sc.pos == |sc.lines|
    ensures var n := sc.(at := Done);
            ScannerOk(c, n, lines) && LoggedBy(n) == LoggedBy(sc) && CapturedBy(n) == CapturedBy(sc) &&
              SentBy(c, n) == SentBy(c, sc)
  {}

  lemma LogKeepsInv(c: Config, s: State, d: Side)
    requires Inv(c, s) && Enabled(s, Log(d))
    ensures Inv(c, Next(c, s, Log(d)))
  {
    hide IsMerge, Joined, Capped, Filter, ScannerOk, LoggedBy, CapturedBy, SentBy, Excerpt;
    var sc := Get(s, d);
    LogEffect(c, sc, if d.Stdout? then c.stdout else c.stderr);
    MergeAppend(s.raw, LoggedBy(s.out), LoggedBy(s.err), sc.lines[sc.pos]);
  }

  lemma CaptureKeepsInv(c: Config, s: State, d: Side)
    requires Inv(c, s) && Enabled(s, Capture(d))
    ensures Inv(c, Next(c, s, Capture(d)))
  {
    hide IsMerge, Joined, Capped, Filter, ScannerOk, LoggedBy, CapturedBy, SentBy, Excerpt;
    var sc := Get(s, d);
    CaptureEffect(c, sc, if d.Stdout? then c.stdout else c.stderr);
    ExcerptIsCapped(CapturedBy(sc), sc.lines[sc.pos]);
    JoinedNext(CapturedBy(sc), sc.lines[sc.pos]);
  }

  lemma MatchKeepsInv(c: Config, s: State, d: Side)
    requires Inv(c, s) && Enabled(s, Match(d))
    ensures Inv(c, Next(c, s, Match(d)))
  {
    hide IsMerge, Joined, Capped, Filter, ScannerOk, LoggedBy, CapturedBy, SentBy, Excerpt;
    MatchEffect(c, Get(s, d), if d.Stdout? then c.stdout else c.stderr);
  }

  lemma SendKeepsInv(c: Config, s: State, d: Side)
    requires Inv(c, s) && Enabled(s, Send(d))
    ensures Inv(c, Next(c, s, Send(d)))
  {
    hide IsMerge, Joined, Capped, Filter, ScannerOk, LoggedBy, CapturedBy, SentBy, Excerpt;
    var x := Get(s, d).at.sig;
    SendEffect(c, Get(s, d), if d.Stdout? then c.stdout else c.stderr);
    assert s.received + (s.channel + [x]) == (s.received + s.channel) + [x];
    MergeAppend(s.received + s.channel, SentBy(c, s.out), SentBy(c, s.err), x);
  }

  lemma EndKeepsInv(c: Config, s: State, d: Side)
    requires Inv(c, s) && Enabled(s, EndOfFile(d))
    ensures Inv(c, Next(c, s, EndOfFile(d)))
  {
    hide IsMerge, Joined, Capped, Filter, ScannerOk, LoggedBy, CapturedBy, SentBy, Excerpt;
    EndEffect(c, Get(s, d), if d.Stdout? then c.stdout else c.stderr);
  }

  lemma FilterNext(xs: seq<Signal>, x: Signal, p: Signal -> bool)
    ensures Filter(xs + [x], p) == if p(x) then Filter(xs, p) + [x] else Filter(xs, p)
  {
    assert (xs + [x])[..|xs|] == xs;
  }

  lemma ReceiveKeepsInv(c: Config, s: State)
    requires Inv(c, s) && Enabled(s, Receive)
    ensures Inv(c, Next(c, s, Receive))
  {
    hide IsMerge, Joined, Capped, Filter, ScannerOk, LoggedBy, CapturedBy, SentBy, Excerpt;
    var x := s.channel[0];
    FilterNext(s.received, x, c.valid);
    assert (s.received + [x]) + s.channel[1..] == s.received + s.channel;
  }

  lemma InvStep(c: Config, s: State, t: Step)
    requires Inv(c, s) && Enabled(s, t)
    ensures |s.stderrBuf| <= EXCERPT_CAP && Inv(c, Next(c, s, t))
  {
    match t
    case Log(d) => LogKeepsInv(c, s, d);
    case Capture(d) => CaptureKeepsInv(c, s, d);
    case Match(d) => MatchKeepsInv(c, s, d);
    case Send(d) => SendKeepsInv(c, s, d);
    case EndOfFile(d) => EndKeepsInv(c, s, d);
    case Receive => ReceiveKeepsInv(c, s);
    case _ => QuietKeepsInv(c, s, t);
  }

  lemma QuietKeepsInv(c: Config, s: State, t: Step)
    requires Inv(c, s) && Enabled(s, t) && (t.Close? || t.Stop?)
    ensures Inv(c, Next(c, s, t))
  {
    hide IsMerge, Joined, Capped, Filter, ScannerOk, LoggedBy, CapturedBy, SentBy, Excerpt;
  }

  /** A schedule: the states passed through and the step taken in each. */
  ghost predicate IsRun(c: Config, ss: seq<State>, ts: seq<Step>) {
    && |ss| == |ts| + 1 && ss[0] == Initial(c)
    && forall i :: 0 <= i < |ts| ==> Steps(c, ss[i], ts[i], ss[i + 1])
  }

  ghost predicate Steps(c: Config, s: State, t: Step, s': State) {
    Enabled(s, t) && |s.stderrBuf| <= EXCERPT_CAP && s' == Next(c, s, t)
  }

  lemma {:induction false} InvHolds(c: Config, ss: seq<State>, ts: seq<Step>, n: nat)
    requires IsRun(c, ss, ts) && n < |ss|
    ensures Inv(c, ss[n])
  {
    hide Inv, Initial, Next, Enabled;
    if n == 0 {
      InvStart(c);
    } else {
      InvHolds(c, ss, ts, n - 1);
      assert Steps(c, ss[n - 1], ts[n - 1], ss[n - 1 + 1]);
      InvStep(c, ss[n - 1], ts[n - 1]);
    }
  }

  // ---- Main results --------------------------------------------------------------------------------

  /**
   * When the collecting loop is over, in whatever schedule: the valid signals of an interleaving of the matches of
   * both streams have been kept in order, the raw log interleaves both streams, and the two captures are exact.
   */
  lemma CollectedExactly(c: Config, ss: seq<State>, ts: seq<Step>)
    requires IsRun(c, ss, ts) && ss[|ts|].finished
    ensures var s := ss[|ts|];
            && IsMerge(s.received, Matches(c.matchLine, c.stdout), Matches(c.matchLine, c.stderr))
            && s.individuals == Filter(s.received, c.valid)
            && IsMerge(s.raw, c.stdout, c.stderr)
            && s.stdoutBuf == Joined(c.stdout)
            && s.stderrBuf == Capped(Joined(c.stderr))
    ensures (forall x :: c.valid(x)) ==>
              var s := ss[|ts|];
              && IsMerge(s.individuals, Matches(c.matchLine, c.stdout), Matches(c.matchLine, c.stderr))
              && multiset(s.individuals) == multiset(Matches(c.matchLine, c.stdout)) + multiset(Matches(c.matchLine,
                 c.stderr))
  {
    var s := ss[|ts|];
    InvHolds(c, ss, ts, |ts|);
    hide IsMerge, Matches, Filter, Joined, Capped, IsRun;
    assert s.received + s.channel == s.received;
    assert s.out.lines[..s.out.pos] == c.stdout && s.err.lines[..s.err.pos] == c.stderr;
    MergeKeepsAll(s.received, Matches(c.matchLine, c.stdout), Matches(c.matchLine, c.stderr));
    if forall x :: c.valid(x) { FilterAll(s.received, c.valid); }
  }

  /** No schedule gets stuck: a full channel can always be received from, and an empty one is closed in the end. */
  lemma NeverStuck(c: Config, ss: seq<State>, ts: seq<Step>) returns (t: Step)
    requires IsRun(c, ss, ts) && !ss[|ts|].finished
    ensures Enabled(ss[|ts|], t)
  {
    var s := ss[|ts|];
    InvHolds(c, ss, ts, |ts|);
    if s.channel != [] { return Receive; }
    if s.closed { return Stop; }
    if s.out.at.Done? && s.err.at.Done? { return Close; }
    var d := if s.out.at.Done? then Stderr else Stdout;
    t := match Get(s, d).at
      case Scanning => if Get(s, d).pos < |Get(s, d).lines| then Log(d) else EndOfFile(d)
      case Logged => Capture(d)
      case Captured => Match(d)
      case Sending(_) => Send(d)
      case Done => Close;
  }

  /** Steps that are still to be made at most. */
  function Left(s: State): int {
    ScannerLeft(s.out) + ScannerLeft(s.err) + |s.channel| + (if s.closed then 0 else 1) + if s.finished then 0 else 1
  }

  function ScannerLeft(sc: Scanner): int {
    5 * (|sc.lines| - sc.pos) +
    match sc.at case Scanning => 3 case Logged => 2 case Captured => 1 case Sending(_) => 5 case Done => 0
  }

  lemma StepUsesUp(c: Config, s: State, t: Step)
    requires Enabled(s, t) && |s.stderrBuf| <= EXCERPT_CAP
    ensures Left(Next(c, s, t)) < Left(s)
  {
    hide Excerpt;
    match t
    case Log(d) => ScannerUsesUp(s, d, Get(s, d).(at := Logged));
    case Capture(d) => ScannerUsesUp(s, d, Get(s, d).(at := Captured));
    case EndOfFile(d) => ScannerUsesUp(s, d, Get(s, d).(at := Done));
    case Match(d) =>
      var sc := Get(s, d);
      var at := match c.matchLine(sc.lines[sc.pos]) case Some(x) => Sending(x) case None => Scanning;
      ScannerUsesUp(s, d, sc.(pos := sc.pos + 1, at := at));
    case _ =>
  }

  lemma ScannerUsesUp(s: State, d: Side, sc: Scanner)
    requires ScannerLeft(sc) < ScannerLeft(Get(s, d))
    ensures Left(Put(s, d, sc)) < Left(s)
  {
    hide ScannerLeft;
  }

  /** Every schedule ends within a bound that depends on the number of lines only. */
  lemma ScheduleIsBounded(c: Config, ss: seq<State>, ts: seq<Step>)
    requires IsRun(c, ss, ts)
    ensures |ts| <= 5 * (|c.stdout| + |c.stderr|) + 8
  {
    IsRunLength(c, ss, ts);
    InvHolds(c, ss, ts, |ts|);
    UsedUp(c, ss, ts, |ts|);
    LeftAtStart(c);
    hide *;
    LeftIsNatural(c, ss[|ts|]);
  }

  lemma IsRunLength(c: Config, ss: seq<State>, ts: seq<Step>)
    requires IsRun(c, ss, ts)
    ensures |ss| == |ts| + 1
  {}

  lemma LeftAtStart(c: Config)
    ensures Left(Initial(c)) == 5 * (|c.stdout| + |c.stderr|) + 8
  {}

  lemma LeftIsNatural(c: Config, s: State)
    requires Inv(c, s)
    ensures Left(s) >= 0
  {
    hide IsMerge, Joined, Capped, Filter, LoggedBy, CapturedBy, SentBy;
  }

  lemma {:induction false} UsedUp(c: Config, ss: seq<State>, ts: seq<Step>, n: nat)
    requires IsRun(c, ss, ts) && n <= |ts|
    ensures Left(ss[n]) + n <= Left(Initial(c))
  {
    hide Left, Next, Enabled, Initial;
    if n > 0 {
      UsedUp(c, ss, ts, n - 1);
      assert Steps(c, ss[n - 1], ts[n - 1], ss[n - 1 + 1]);
      StepUsesUp(c, ss[n - 1], ts[n - 1]);
    }
  }
}
