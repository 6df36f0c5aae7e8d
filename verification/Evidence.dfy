/** Folding the individual signals of a run: worst verdict, histogram, and the evidence worth showing. */
module Evidence {
  import opened Verdicts

  type Item = string

  datatype Signal = Signal(verdict: string, severity: string, evidence: seq<Item>)

  // ---- The order evidence is shown in ------------------------------------------------------------

  /** The signals of rank `r`, in the order they were emitted. */
  function OfRank(ss: seq<Signal>, r: nat): seq<Signal> {
    if ss == [] then []
    else OfRank(ss[..|ss| - 1], r) + if Rank(ss[|ss| - 1].verdict) == r then [ss[|ss| - 1]] else []
  }

  /** The signals of rank `q` and below, worse ranks first; signals of one rank keep their order. */
  function Downward(ss: seq<Signal>, q: nat): seq<Signal> {
    OfRank(ss, q) + if q == 0 then [] else Downward(ss, q - 1)
  }

  const MAX_RANK: nat := 3

  function WorstFirst(ss: seq<Signal>): seq<Signal> {
    Downward(ss, MAX_RANK)
  }

  /** How many signals have a rank from `r` to `q`. */
  function CountFrom(ss: seq<Signal>, q: nat, r: nat): nat {
    if r > q then 0 else |OfRank(ss, q)| + if q == 0 then 0 else CountFrom(ss, q - 1, r)
  }

  function AtLeast(ss: seq<Signal>, r: nat): nat {
    CountFrom(ss, MAX_RANK, r)
  }

  lemma {:induction false} OfRankHas(ss: seq<Signal>, r: nat)
    ensures forall i :: 0 <= i < |OfRank(ss, r)| ==> Rank(OfRank(ss, r)[i].verdict) == r
  {
    if ss != [] { OfRankHas(ss[..|ss| - 1], r); }
  }

  lemma RankAtMost3(v: string)
    ensures Rank(v) <= 3 && (Failing(v) <==> Rank(v) >= 2)
  {}

  /** In `Downward` the first `CountFrom` signals, and no others, rank at least `r`. */
  lemma {:induction false} DownwardRanks(ss: seq<Signal>, q: nat, r: nat)
    ensures CountFrom(ss, q, r) <= |Downward(ss, q)|
    ensures forall i :: 0 <= i < |Downward(ss, q)| ==>
              Rank(Downward(ss, q)[i].verdict) <= q &&
                (Rank(Downward(ss, q)[i].verdict) >= r <==> i < CountFrom(ss, q, r))
  {
    OfRankHas(ss, q);
    if q > 0 { DownwardRanks(ss, q - 1, r); }
    hide OfRank, Rank;
    var a, b := OfRank(ss, q), if q == 0 then [] else Downward(ss, q - 1);
    assert forall i :: 0 <= i < |a + b| ==> (a + b)[i] == if i < |a| then a[i] else b[i - |a|];
  }

  lemma WorstFirstRanks(ss: seq<Signal>, r: nat)
    ensures AtLeast(ss, r) <= |WorstFirst(ss)|
    ensures forall i :: 0 <= i < |WorstFirst(ss)| ==> (Rank(WorstFirst(ss)[i].verdict) >= r <==> i < AtLeast(ss, r))
  {
    DownwardRanks(ss, MAX_RANK, r);
  }

  function Put(w: seq<Signal>, k: nat, x: Signal): seq<Signal>
    requires k <= |w|
  {
    w[..k] + [x] + w[k..]
  }

  /** A new signal goes behind everything that ranks at least as high, and before the rest. */
  lemma {:induction false} InsertDownward(ss: seq<Signal>, x: Signal, q: nat)
    ensures var w, r := Downward(ss, q), Rank(x.verdict);
            if r > q then Downward(ss + [x], q) == w
            else CountFrom(ss, q, r) <= |w| && Downward(ss + [x], q) == Put(w, CountFrom(ss, q, r), x)
  {
    var r, a := Rank(x.verdict), OfRank(ss, q);
    OfRankNext(ss, x, q);
    hide OfRank, Rank, Put;
    if q == 0 {
      if r == 0 { PutBetween(a, [], x); }
    } else {
      var b := Downward(ss, q - 1);
      InsertDownward(ss, x, q - 1);
      hide Downward;
      InsertStep(ss, x, q);
    }
  }

  lemma OfRankNext(ss: seq<Signal>, x: Signal, q: nat)
    ensures OfRank(ss + [x], q) == OfRank(ss, q) + if Rank(x.verdict) == q then [x] else []
  {
    assert (ss + [x])[..|ss|] == ss;
  }

  lemma InsertStep(ss: seq<Signal>, x: Signal, q: nat)
    requires q > 0
    requires var w, r := Downward(ss, q - 1), Rank(x.verdict);
             if r > q - 1 then Downward(ss + [x], q - 1) == w
             else CountFrom(ss, q - 1, r) <= |w| && Downward(ss + [x], q - 1) == Put(w, CountFrom(ss, q - 1, r), x)
    ensures var w, r := Downward(ss, q), Rank(x.verdict);
            if r > q then Downward(ss + [x], q) == w
            else CountFrom(ss, q, r) <= |w| && Downward(ss + [x], q) == Put(w, CountFrom(ss, q, r), x)
  {
    hide *;
    var r := Rank(x.verdict);
    OfRankNext(ss, x, q);
    DownwardStep(ss, q, r);
    DownwardStep(ss + [x], q, r);
    InsertStepValues(OfRank(ss, q), OfRank(ss + [x], q), Downward(ss, q - 1), Downward(ss + [x], q - 1), r, q,
      CountFrom(ss, q - 1, r), x);
  }

  lemma DownwardStep(ss: seq<Signal>, q: nat, r: nat)
    requires q > 0
    ensures Downward(ss, q) == OfRank(ss, q) + Downward(ss, q - 1)
    ensures CountFrom(ss, q, r) == if r > q then 0 else |OfRank(ss, q)| + CountFrom(ss, q - 1, r)
    ensures r > q - 1 ==> CountFrom(ss, q - 1, r) == 0
  {}

  lemma InsertStepValues(a: seq<Signal>, a': seq<Signal>, b: seq<Signal>, b': seq<Signal>, r: nat, q: nat, k: nat,
                         x: Signal)
    requires a' == a + if r == q then [x] else []
    requires if r >= q then b' == b && k == 0 else k <= |b| && b' == Put(b, k, x)
    ensures if r > q then a' + b' == a + b else |a| + k <= |a + b| && a' + b' == Put(a + b, |a| + k, x)
  {
    hide *;
    if r == q {
      PutBetween(a, b, x);
    } else if r < q {
      PutLater(a, b, k, x);
    } else {
      assert a' == a;
    }
  }

  lemma PutBetween(a: seq<Signal>, b: seq<Signal>, x: Signal)
    ensures Put(a + b, |a|, x) == (a + [x]) + b
  {
    assert (a + b)[..|a|] == a && (a + b)[|a|..] == b;
  }

  lemma PutLater(a: seq<Signal>, b: seq<Signal>, k: nat, x: Signal)
    requires k <= |b|
    ensures Put(a + b, |a| + k, x) == a + Put(b, k, x)
  {
    assert (a + b)[..|a| + k] == a + b[..k] && (a + b)[|a| + k..] == b[k..];
  }

  lemma InsertNext(ss: seq<Signal>, x: Signal)
    ensures var w, k := WorstFirst(ss), AtLeast(ss, Rank(x.verdict));
            k <= |w| && WorstFirst(ss + [x]) == Put(w, k, x)
  {
    RankAtMost3(x.verdict);
    hide Put, Downward, CountFrom, Rank;
    InsertDownward(ss, x, MAX_RANK);
  }

  lemma {:induction false} WorstFirstPermutes(ss: seq<Signal>)
    ensures multiset(WorstFirst(ss)) == multiset(ss)
  {
    if ss != [] {
      var n := |ss| - 1;
      var init, x := ss[..n], ss[n];
      WorstFirstPermutes(init);
      InsertNext(init, x);
      var w, k := WorstFirst(init), AtLeast(init, Rank(x.verdict));
      hide *;
      assert ss == init + [x];
      InsertPermutes(w, k, x);
    } else {
      NothingToOrder();
    }
  }

  lemma InsertPermutes(w: seq<Signal>, k: nat, x: Signal)
    requires k <= |w|
    ensures multiset(Put(w, k, x)) == multiset(w) + multiset{x}
  {
    assert w == w[..k] + w[k..];
  }

  /** Stable insertion, the order in which equal ranks keep their place. */
  method SortByRank(ss: seq<Signal>) returns (out: seq<Signal>)
    ensures out == WorstFirst(ss)
  {
    hide *;
    out := [];
    NothingToOrder();
    assert ss[..0] == [];
    for i := 0 to |ss|
      invariant out == WorstFirst(ss[..i])
    {
      var k := |out|;
      while k > 0 && Rank(out[k - 1].verdict) < Rank(ss[i].verdict)
        invariant 0 <= k <= |out|
        invariant forall j :: k <= j < |out| ==> Rank(out[j].verdict) < Rank(ss[i].verdict)
      {
        k := k - 1;
      }
      PlaceFound(ss[..i], ss[i], k);
      assert ss[..i + 1] == ss[..i] + [ss[i]];
      out := Put(out, k, ss[i]);
    }
    assert ss[..|ss|] == ss;
  }

  lemma NothingToOrder()
    ensures WorstFirst([]) == []
  {
    assert Downward([], 2) == [] by { assert Downward([], 1) == [] by { assert Downward([], 0) == []; } }
  }

  lemma PlaceFound(ss: seq<Signal>, x: Signal, k: nat)
    requires k <= |WorstFirst(ss)|
    requires forall j :: k <= j < |WorstFirst(ss)| ==> Rank(WorstFirst(ss)[j].verdict) < Rank(x.verdict)
    requires k > 0 ==> Rank(WorstFirst(ss)[k - 1].verdict) >= Rank(x.verdict)
    ensures WorstFirst(ss + [x]) == Put(WorstFirst(ss), k, x)
  {
    RankAtMost3(x.verdict);
    WorstFirstRanks(ss, Rank(x.verdict));
    hide WorstFirst, AtLeast, Rank;
    var w, r, a := WorstFirst(ss), Rank(x.verdict), AtLeast(ss, Rank(x.verdict));
    assert k < |w| ==> (Rank(w[k].verdict) >= r <==> k < a);
    assert k > 0 ==> (Rank(w[k - 1].verdict) >= r <==> k - 1 < a);
    InsertNext(ss, x);
  }

  // ---- Evidence --------------------------------------------------------------------------------------

  function AllEvidence(ss: seq<Signal>): seq<Item> {
    if ss == [] then [] else AllEvidence(ss[..|ss| - 1]) + ss[|ss| - 1].evidence
  }

  function FirstN(items: seq<Item>, n: int): seq<Item> {
    if n <= 0 then [] else if n < |items| then items[..n] else items
  }

  /** The first `n` items of the evidence of all signals, worst signals first. */
  method SelectTopEvidence(individuals: seq<Signal>, n: int) returns (out: seq<Item>)
    ensures out == FirstN(AllEvidence(WorstFirst(individuals)), n)
    ensures out <= AllEvidence(WorstFirst(individuals))
    ensures n >= 0 ==> |out| <= n && (|out| < n ==> out == AllEvidence(WorstFirst(individuals)))
    ensures n < 0 ==> out == []
  {
    var tagged := SortByRank(individuals);
    hide WorstFirst;
    out := [];
    var i := 0;
    while i < |tagged| && |out| < n
      invariant 0 <= i <= |tagged| && out == FirstN(AllEvidence(tagged[..i]), n)
    {
      hide AllEvidence;
      var before := AllEvidence(tagged[..i]);
      var ev := tagged[i].evidence;
      var k := 0;
      while k < |ev| && |out| < n
        invariant 0 <= k <= |ev| && out == FirstN(before + ev[..k], n)
      {
        assert before + ev[..k + 1] == before + ev[..k] + [ev[k]];
        out, k := out + [ev[k]], k + 1;
      }
      StopsWhenFull(before, ev, k, n);
      NextEvidence(tagged, i);
      i := i + 1;
    }
    RestIsCut(tagged, i, n);
    assert tagged[..|tagged|] == tagged;
  }

  lemma StopsWhenFull(before: seq<Item>, ev: seq<Item>, k: nat, n: int)
    requires k <= |ev| && (k == |ev| || |FirstN(before + ev[..k], n)| >= n)
    ensures FirstN(before + ev[..k], n) == FirstN(before + ev, n)
  {
    assert ev == ev[..k] + ev[k..];
    assert before + ev == (before + ev[..k]) + ev[k..];
  }

  lemma NextEvidence(ss: seq<Signal>, i: nat)
    requires i < |ss|
    ensures AllEvidence(ss[..i + 1]) == AllEvidence(ss[..i]) + ss[i].evidence
  {
    assert ss[..i + 1][..i] == ss[..i];
  }

  lemma {:induction false} RestIsCut(ss: seq<Signal>, i: nat, n: int)
    requires i <= |ss| && (i == |ss| || |FirstN(AllEvidence(ss[..i]), n)| >= n)
    ensures FirstN(AllEvidence(ss[..i]), n) == FirstN(AllEvidence(ss[..|ss|]), n)
    decreases |ss| - i
  {
    if i < |ss| {
      NextEvidence(ss, i);
      var before, ev := AllEvidence(ss[..i]), ss[i].evidence;
      assert before + ev[..0] == before;
      StopsWhenFull(before, ev, 0, n);
      RestIsCut(ss, i + 1, n);
    }
  }

  /** The items of some signals followed by others are theirs followed by those of the others. */
  lemma {:induction false} AllEvidenceSplit(a: seq<Signal>, b: seq<Signal>)
    ensures AllEvidence(a + b) == AllEvidence(a) + AllEvidence(b)
    ensures |a| == 1 ==> AllEvidence(a) == a[0].evidence
  {
    if |a| == 1 {
      assert a[..0] == [];
    }
    if b == [] {
      assert a + b == a;
    } else {
      var init := b[..|b| - 1];
      AllEvidenceSplit(a, init);
      assert (a + b)[..|a + b| - 1] == a + init;
      assert AllEvidence(a + b) == AllEvidence(a + init) + b[|b| - 1].evidence;
      assert AllEvidence(b) == AllEvidence(init) + b[|b| - 1].evidence;
      hide AllEvidence;
    }
  }

  /** Asking for more evidence only adds to what was shown. */
  lemma MoreEvidenceExtends(ss: seq<Signal>, m: int, n: int)
    requires m <= n
    ensures FirstN(AllEvidence(WorstFirst(ss)), m) <= FirstN(AllEvidence(WorstFirst(ss)), n)
  {}

  // ---- Verdicts --------------------------------------------------------------------------------------

  /** The head of the evidence order, or pass and info if nothing is worse than pass. */
  function WorstOf(ss: seq<Signal>): (string, string) {
    var w := WorstFirst(ss);
    if w != [] && Rank(w[0].verdict) > 0 then (w[0].verdict, w[0].severity) else ("pass", "info")
  }

  method MaxStreamVerdict(individuals: seq<Signal>) returns (verdict: string, severity: string)
    ensures (verdict, severity) == WorstOf(individuals) && IsWorstOf(individuals, verdict, severity)
  {
    hide *;
    verdict, severity := "pass", "info";
    var bestRank := 0;
    NoWorst();
    assert individuals[..0] == [];
    for i := 0 to |individuals|
      invariant bestRank == Rank(verdict) && (verdict, severity) == WorstOf(individuals[..i])
    {
      var s := individuals[i];
      NextHead(individuals[..i], s, verdict, severity);
      assert individuals[..i + 1] == individuals[..i] + [s];
      if Rank(s.verdict) > bestRank {
        bestRank, verdict, severity := Rank(s.verdict), s.verdict, s.severity;
      }
    }
    assert individuals[..|individuals|] == individuals;
    WorstOfSays(individuals);
  }

  lemma NoWorst()
    ensures WorstOf([]) == ("pass", "info") && Rank("pass") == 0
  {
    NothingToOrder();
  }

  lemma NextHead(ss: seq<Signal>, x: Signal, verdict: string, severity: string)
    requires (verdict, severity) == WorstOf(ss)
    ensures WorstOf(ss + [x]) ==
            if Rank(x.verdict) > Rank(verdict) then (x.verdict, x.severity) else (verdict, severity)
  {
    InsertNext(ss, x);
    RankAtMost3(x.verdict);
    WorstFirstRanks(ss, Rank(x.verdict));
    hide WorstFirst, AtLeast, Rank;
    var w, k := WorstFirst(ss), AtLeast(ss, Rank(x.verdict));
    assert Rank("pass") == 0 by { PassRanksLowest(); }
  }

  ghost function VerdictsOf(ss: seq<Signal>): set<string> {
    set x | x in ss :: x.verdict
  }

  ghost predicate FirstWith(ss: seq<Signal>, v: string, i: int) {
    0 <= i < |ss| && ss[i].verdict == v && forall j :: 0 <= j < i ==> ss[j].verdict != v
  }

  /** The worst of the verdicts, with the severity of the first signal that has it, or pass and info. */
  ghost predicate IsWorstOf(ss: seq<Signal>, v: string, severity: string) {
    && Tops(v, VerdictsOf(ss))
    && if v in {"error", "fail", "warn"} then exists i :: FirstWith(ss, v, i) && severity == ss[i].severity
       else v == "pass" && severity == "info"
  }

  lemma {:induction false} WorstOfSays(ss: seq<Signal>)
    ensures IsWorstOf(ss, WorstOf(ss).0, WorstOf(ss).1)
  {
    if ss == [] {
      NoWorst();
    } else {
      var init, x := ss[..|ss| - 1], ss[|ss| - 1];
      WorstOfSays(init);
      var (v, severity) := WorstOf(init);
      NextHead(init, x, v, severity);
      hide *;
      assert ss == init + [x];
      SaysNext(init, x, v, severity);
    }
  }

  lemma SaysNext(ss: seq<Signal>, x: Signal, v: string, severity: string)
    requires IsWorstOf(ss, v, severity)
    ensures if Rank(x.verdict) > Rank(v) then IsWorstOf(ss + [x], x.verdict, x.severity)
            else IsWorstOf(ss + [x], v, severity)
  {
    var longer := ss + [x];
    assert VerdictsOf(longer) == VerdictsOf(ss) + {x.verdict};
    WorstTops(v, VerdictsOf(ss), x.verdict);
    if Rank(x.verdict) > Rank(v) {
      assert forall y :: y in ss && y.verdict == x.verdict ==> y.verdict in VerdictsOf(ss);
      hide VerdictsOf;
      assert FirstWith(longer, x.verdict, |ss|);
    } else if v in {"error", "fail", "warn"} {
      hide VerdictsOf;
      var i :| FirstWith(ss, v, i) && severity == ss[i].severity;
      assert FirstWith(longer, v, i) && longer[i] == ss[i];
    }
  }

  lemma PassRanksLowest()
    ensures Rank("pass") == 0
  {}

  function Count(ss: seq<Signal>, v: string): nat {
    if ss == [] then 0 else Count(ss[..|ss| - 1], v) + if ss[|ss| - 1].verdict == v then 1 else 0
  }

  const VERDICTS: set<string> := {"pass", "warn", "fail", "error"}

  /** The histogram over the four verdicts; anything else is not counted. */
  method CountVerdicts(individuals: seq<Signal>) returns (counts: map<string, nat>)
    ensures counts.Keys == VERDICTS && forall v :: v in VERDICTS ==> counts[v] == Count(individuals, v)
  {
    counts := map["pass" := 0, "warn" := 0, "fail" := 0, "error" := 0];
    assert individuals[..0] == [];
    for i := 0 to |individuals|
      invariant counts.Keys == VERDICTS && forall v :: v in VERDICTS ==> counts[v] == Count(individuals[..i], v)
    {
      var v := individuals[i].verdict;
      assert individuals[..i + 1][..i] == individuals[..i];
      if v in counts {
        counts := counts[v := counts[v] + 1];
      }
    }
    assert individuals[..|individuals|] == individuals;
  }

  /**
   * The histogram and the evidence order agree: each failing rank holds exactly the signals counted under its
   * verdict.
   */
  lemma {:induction false} HistogramAgrees(ss: seq<Signal>)
    ensures Count(ss, "error") == |OfRank(ss, 3)| && Count(ss, "fail") == |OfRank(ss, 2)| &&
            Count(ss, "warn") == |OfRank(ss, 1)|
    ensures Count(ss, "pass") <= |OfRank(ss, 0)|
  {
    if ss != [] { HistogramAgrees(ss[..|ss| - 1]); }
  }

  lemma CountIsTwoRanks(ss: seq<Signal>)
    ensures AtLeast(ss, 2) == |OfRank(ss, 3)| + |OfRank(ss, 2)|
  {
    assert CountFrom(ss, 2, 2) == |OfRank(ss, 2)| + CountFrom(ss, 1, 2);
  }

  datatype AggregateInput = AggregateInput(exitVerdict: string, exitSeverity: string, streamVerdict: string,
                                           streamSeverity: string,
                                           timedOut: bool, blocking: bool)

  function Aggregate(a: AggregateInput): (string, string) {
    if a.timedOut && !a.blocking then ("error", "high")
    else
      var (exitV, exitS) := if a.timedOut && a.blocking then ("pass", "info") else (a.exitVerdict, a.exitSeverity);
      if Rank(a.streamVerdict) > Rank(exitV) then (a.streamVerdict, a.streamSeverity) else (exitV, exitS)
  }

  /**
   * Fed with the worst stream verdict, the aggregate fails exactly when a signal is counted as failing, the exit
   * code failed and was not overruled by an intended timeout, or a one-shot run timed out.
   */
  lemma AggregateFailsIff(ss: seq<Signal>, a: AggregateInput)
    requires (a.streamVerdict, a.streamSeverity) == WorstOf(ss)
    ensures Failing(Aggregate(a).0) <==>
            if a.timedOut && !a.blocking then true
            else Count(ss, "fail") + Count(ss, "error") > 0 || (!a.timedOut && Failing(a.exitVerdict))
  {
    HistogramAgrees(ss);
    WorstFirstRanks(ss, 2);
    RankAtMost3(a.exitVerdict);
    RankAtMost3(a.streamVerdict);
    RankAtMost3(Aggregate(a).0);
    PassRanksLowest();
    CountIsTwoRanks(ss);
    hide OfRank, Rank, WorstFirst, AtLeast;
    var w := WorstFirst(ss);
    if w != [] {
      RankAtMost3(w[0].verdict);
      assert Rank(w[0].verdict) >= 2 <==> 0 < AtLeast(ss, 2);
    }
  }

  /**
   * The aggregate of a run: error for a one-shot run that timed out; otherwise the worst of its signals and its exit
   * code, which an intended timeout turns into a pass, and on a tie what the exit code says.
   */
  lemma AggregateSays(ss: seq<Signal>, a: AggregateInput)
    requires (a.streamVerdict, a.streamSeverity) == WorstOf(ss)
    ensures var (exitV, exitS) := if a.timedOut then ("pass", "info") else (a.exitVerdict, a.exitSeverity);
            var all := VerdictsOf(ss) + {exitV};
            if a.timedOut && !a.blocking then Aggregate(a) == ("error", "high")
            else Tops(Aggregate(a).0, all) && Aggregate(a) == if Tops(exitV, all) then (exitV, exitS) else WorstOf(ss)
  {
    WorstOfSays(ss);
    hide WorstOf;
    WorstTops(a.streamVerdict, VerdictsOf(ss), if a.timedOut then "pass" else a.exitVerdict);
  }

  /**
   * The closing verdict of a stopped dependency: the worst its signals said, but never less than fail if it had
   * died on its own before the stop. It fails exactly when it died or a failing signal was counted.
   */
  method StopVerdict(liveBeforeStop: bool, individuals: seq<Signal>) returns (verdict: string, severity: string)
    ensures Failing(verdict) <==> !liveBeforeStop || Count(individuals, "fail") + Count(individuals, "error") > 0
    ensures if liveBeforeStop || Count(individuals, "fail") + Count(individuals, "error") > 0
            then IsWorstOf(individuals, verdict, severity) else verdict == "fail" && severity == "high"
  {
    verdict, severity := MaxStreamVerdict(individuals);
    WorstFailsIff(individuals);
    RankAtMost3(verdict);
    hide WorstOf, Count;
    if !liveBeforeStop && Rank(verdict) < Rank("fail") {
      verdict, severity := "fail", "high";
    }
  }

  lemma WorstFailsIff(ss: seq<Signal>)
    ensures Failing(WorstOf(ss).0) <==> Count(ss, "fail") + Count(ss, "error") > 0
  {
    var (v, s) := WorstOf(ss);
    AggregateFailsIff(ss, AggregateInput("pass", "info", v, s, false, true));
    RankAtMost3(v);
    RankAtMost3("pass");
  }
}
