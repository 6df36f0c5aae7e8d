/** One orchestrated run: pre-flight, the root sensor, the detach of every live dependency, the final line. */
module RunWithDeps {
  import opened Options
  import opened Order
  import opened Dag
  import opened Preflight
  import opened Picks

  datatype DepDeath = DepDeath(depID: Id, reason: string)

  /** The root's closing signal; `cancelledBy` is set when a live dependency died under it. */
  datatype RootSignal = RootSignal(sensorID: Id, verdict: string, severity: string, cancelledBy: Option<DepDeath>)

  /**
   * One item of stdout: everything an act printed, a start failure, what a failed dependency run printed, the
   * root's stream, a detach, or the root's closing line.
   */
  datatype Line =
    | ActOutput(act: Act)
    | StartFailure(target: Id)
    | FailedRunOutput(id: Id)
    | RootStream
    | DetachOutput(live: LiveDep)
    | Final(sig: RootSignal)

  /**
   * Outside decisions: does a detach find its entry, is the cascade valid, what the root did, which death was
   * recorded.
   */
  datatype RootWorld = RootWorld(
    entryFound: LiveDep -> bool,
    finalCascadeValid: bool,
    rootSig: Option<RootSignal>,
    rootCode: int,
    death: Option<DepDeath>
  )

  function Annotate(sig: RootSignal, death: DepDeath): RootSignal {
    sig.(verdict := "error", severity := "high", cancelledBy := Some(death))
  }

  function Reverse<T>(s: seq<T>): (r: seq<T>)
    ensures |r| == |s| && forall i :: 0 <= i < |s| ==> r[i] == s[|s| - 1 - i]
  {
    if s == [] then [] else [s[|s| - 1]] + Reverse(s[..|s| - 1])
  }

  /** What detaching these handles in this order prints. */
  function DetachLines(e: RootWorld, order: seq<LiveDep>): seq<Line> {
    if order == [] then []
    else DetachLines(e, order[..|order| - 1]) +
         if e.entryFound(order[|order| - 1]) then [DetachOutput(order[|order| - 1])] else []
  }

  /** A run whose closing line, if any, is the last one and whose detaches all precede it. */
  ghost predicate FinalLineLast(stdout: seq<Line>) {
    forall i :: 0 <= i < |stdout| && stdout[i].Final? ==> i == |stdout| - 1
  }

  class Run {
    var liveStack: seq<LiveDep>
    var stdout: seq<Line>
    ghost var detached: seq<LiveDep>

    constructor ()
      ensures liveStack == [] && stdout == [] && detached == []
    {
      liveStack, stdout, detached := [], [], [];
    }

    method DetachLiveDep(e: RootWorld, live: LiveDep)
      modifies `stdout, `detached
      ensures stdout == old(stdout) + DetachLines(e, [live])
      ensures detached == old(detached) + [live]
    {
      assert [live][..0] == [];
      if e.entryFound(live) {
        stdout := stdout + [DetachOutput(live)];
      }
      detached := detached + [live];
    }

    /** Consume the live stack last in, first out; a second call finds it empty. */
    method DetachAll(e: RootWorld)
      modifies this
      ensures liveStack == []
      ensures detached == old(detached) + Reverse(old(liveStack))
      ensures stdout == old(stdout) + DetachLines(e, Reverse(old(liveStack)))
    {
      hide *;
      var i := |liveStack|;
      ghost var all := Reverse(liveStack);
      NothingToDetach(e);
      assert all[..0] == [];
      while i > 0
        invariant 0 <= i <= |liveStack| && liveStack == old(liveStack)
        invariant detached == old(detached) + all[..|liveStack| - i]
        invariant stdout == old(stdout) + DetachLines(e, all[..|liveStack| - i])
      {
        i := i - 1;
        var next := liveStack[i];
        assert all[..|liveStack| - i] == all[..|liveStack| - i - 1] + [next];
        DetachLinesAppend(e, all[..|liveStack| - i - 1], next);
        DetachLiveDep(e, next);
      }
      assert all[..|liveStack|] == all;
      liveStack := [];
    }

    method Body(w: World, e: RootWorld, target: Id) returns (code: int, ghost pre: DepsResult)
      requires stdout == [] && liveStack == [] && detached == []
      modifies this
      ensures IsPass(w, target, pre)
      ensures detached + Reverse(liveStack) == Reverse(pre.liveStack)
      ensures code == if pre.exitCode != 0 then pre.exitCode else if pre.cascade.Some? then 1 else e.rootCode
      ensures stdout + DetachLines(e, Reverse(liveStack)) == Transcript(e, target, pre)
    {
      hide *;
      NothingToDetach(e);
      var res := RunDeps(w, target);
      pre := res;
      Paths(e, target, pre);
      stdout := PreLines(target, res);
      liveStack := res.liveStack;
      if res.exitCode != 0 {
        DetachAll(e);
        return res.exitCode, pre;
      }
      if res.cascade.Some? {
        if !e.finalCascadeValid {
          return 1, pre;
        }
        DetachAll(e);
        stdout := stdout + [Final(RootSignal(target, res.cascade.value.verdict, "high", None))];
        return 1, pre;
      }
      stdout := stdout + [RootStream];
      var sig := e.rootSig;
      if e.death.Some? && sig.Some? {
        sig := Some(Annotate(sig.value, e.death.value));
      }
      DetachAll(e);
      if sig.Some? {
        stdout := stdout + [Final(sig.value)];
      }
      return e.rootCode, pre;
    }

    /** The body followed by the deferred detach, which covers the paths that returned without one. */
    method RunWithDeps(w: World, e: RootWorld, target: Id) returns (code: int, ghost pre: DepsResult)
      requires stdout == [] && liveStack == [] && detached == []
      modifies this
      ensures IsPass(w, target, pre)
      ensures liveStack == [] && detached == Reverse(pre.liveStack)
      ensures stdout == Transcript(e, target, pre)
      ensures FinalLineLast(stdout)
      ensures (exists i :: 0 <= i < |stdout| && stdout[i].Final?) <==>
              pre.exitCode == 0 && if pre.cascade.Some? then e.finalCascadeValid else e.rootSig.Some?
      ensures code == if pre.exitCode != 0 then pre.exitCode else if pre.cascade.Some? then 1 else e.rootCode
    {
      code, pre := Body(w, e, target);
      DetachAll(e);
      TranscriptShape(e, target, pre);
    }
  }

  function ActLines(acts: seq<Act>): (r: seq<Line>)
    ensures |r| == |acts| && forall i :: 0 <= i < |r| ==> r[i] == ActOutput(acts[i])
  {
    seq(|acts|, i requires 0 <= i < |acts| => ActOutput(acts[i]))
  }

  function PreLines(target: Id, pre: DepsResult): seq<Line> {
    ActLines(pre.acts) +
    match pre.stop
    case NoStop => []
    case StartFailed => [StartFailure(target)]
    case RunFailed(id) => [FailedRunOutput(id)]
  }

  /** The root's closing line, when there is one. */
  function Closing(e: RootWorld, target: Id, pre: DepsResult): Option<RootSignal> {
    if pre.exitCode != 0 then None
    else if pre.cascade.Some? then
      if e.finalCascadeValid then Some(RootSignal(target, pre.cascade.value.verdict, "high", None)) else None
    else if e.rootSig.Some? && e.death.Some? then Some(Annotate(e.rootSig.value, e.death.value))
    else e.rootSig
  }

  /**
   * The whole of stdout: pre-flight, the root's stream if it ran, every detach in reverse attach order, the closing
   * line.
   */
  function Transcript(e: RootWorld, target: Id, pre: DepsResult): seq<Line> {
    PreLines(target, pre)
    + (if pre.exitCode == 0 && pre.cascade.None? then [RootStream] else [])
    + DetachLines(e, Reverse(pre.liveStack))
    + (if Closing(e, target, pre).Some? then [Final(Closing(e, target, pre).value)] else [])
  }

  /** The transcript on each path through a run. */
  lemma Paths(e: RootWorld, target: Id, pre: DepsResult)
    ensures var t := Transcript(e, target, pre);
            var opening := PreLines(target, pre);
            var detaches := DetachLines(e, Reverse(pre.liveStack));
            if pre.exitCode != 0 then t == opening + detaches
            else if pre.cascade.Some? then
              t == opening + detaches +
                   if e.finalCascadeValid
                   then [Final(RootSignal(target, pre.cascade.value.verdict, "high", None))] else []
            else
              t == opening + [RootStream] + detaches +
                   if e.rootSig.None? then []
                   else [Final(if e.death.Some? then Annotate(e.rootSig.value, e.death.value) else e.rootSig.value)]
  {
    hide PreLines, DetachLines, Reverse, Annotate;
  }

  lemma NothingToDetach(e: RootWorld)
    ensures Reverse<LiveDep>([]) == [] && DetachLines(e, []) == []
  {}

  lemma DetachLinesAppend(e: RootWorld, order: seq<LiveDep>, live: LiveDep)
    ensures DetachLines(e, order + [live]) == DetachLines(e, order) + DetachLines(e, [live])
  {
    assert (order + [live])[..|order|] == order && [live][..0] == [];
  }

  lemma {:induction false} DetachLinesAreDetaches(e: RootWorld, order: seq<LiveDep>)
    ensures forall l :: l in DetachLines(e, order) ==> l.DetachOutput?
  {
    if order != [] {
      DetachLinesAreDetaches(e, order[..|order| - 1]);
    }
  }

  /** The handles whose entry is still there, in the order they are detached, have one line each. */
  lemma {:induction false} DetachLinesAre(e: RootWorld, order: seq<LiveDep>) returns (idx: seq<nat>)
    ensures PicksOut(idx, order, e.entryFound) && |DetachLines(e, order)| == |idx|
    ensures forall k :: 0 <= k < |idx| ==> DetachLines(e, order)[k] == DetachOutput(order[idx[k]])
  {
    idx := [];
    if order != [] {
      var before := DetachLinesAre(e, order[..|order| - 1]);
      PicksLast(before, order, e.entryFound);
      idx := PickLast(before, order, e.entryFound);
      hide PicksOut;
    }
  }

  /**
   * The closing line spelled out: the error of a cascade, the root's own signal, or that signal turned into an error
   * that names the dependency that died.
   */
  lemma ClosingSays(w: World, e: RootWorld, target: Id, pre: DepsResult, sig: RootSignal)
    requires IsPass(w, target, pre) && Closing(e, target, pre) == Some(sig)
    ensures pre.exitCode == 0
    ensures if pre.cascade.Some? then sig == RootSignal(target, "error", "high", None)
            else e.rootSig.Some? &&
                 if e.death.Some?
                 then sig == RootSignal(e.rootSig.value.sensorID, "error", "high", Some(e.death.value))
                 else sig == e.rootSig.value
  {
    if pre.exitCode == 0 { CascadeSays(w, target, pre); }
    hide IsPass;
  }

  lemma TranscriptShape(e: RootWorld, target: Id, pre: DepsResult)
    ensures FinalLineLast(Transcript(e, target, pre))
    ensures (exists i :: 0 <= i < |Transcript(e, target, pre)| && Transcript(e, target, pre)[i].Final?)
            <==> Closing(e, target, pre).Some?
    ensures var t := Transcript(e, target, pre);
            && |pre.acts| <= |t| && (forall i :: 0 <= i < |pre.acts| ==> t[i] == ActOutput(pre.acts[i]))
            && (RootStream in t <==> pre.exitCode == 0 && pre.cascade.None?)
            && forall i, j :: 0 <= i < j < |t| && t[i].DetachOutput? ==> t[j].DetachOutput? || t[j].Final?
  {
    DetachLinesAreDetaches(e, Reverse(pre.liveStack));
    var t := Transcript(e, target, pre);
    var before := PreLines(target, pre) + if pre.exitCode == 0 && pre.cascade.None? then [RootStream] else [];
    var detaches := DetachLines(e, Reverse(pre.liveStack));
    assert forall i :: 0 <= i < |before| ==> !before[i].Final?;
    assert forall i :: 0 <= i < |detaches| ==> detaches[i] in detaches;
    var body := before + detaches;
    assert forall i :: 0 <= i < |body| ==> !body[i].Final?;
    hide PreLines, DetachLines, Reverse;
    if Closing(e, target, pre).Some? {
      assert t[|t| - 1].Final?;
    }
  }
}
