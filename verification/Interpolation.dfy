/** Rules 4, 6 and 7: what the static checks of step interpolation promise about a run of the pipeline. */
module Interpolation {
  import opened Options
  import opened Verdicts
  import opened Jsons
  import opened Template
  import opened StaticRefs
  import opened Steps
  import opened Engine

  datatype RuleError =
    | DuplicateID(id: string)
    | Unknown(at: nat, ref: OutputsRef)
    | TooLate(at: nat, ref: OutputsRef)
    | Undeclared(at: nat, ref: OutputsRef)

  // ---- The templates of a step ---------------------------------------------------------------------

  /** Every string leaf of an expect tree. */
  function Strings(v: Json): set<string> {
    match v
    case Str(s) => {s}
    case Arr(xs) => set i, t | 0 <= i < |xs| && t in Strings(xs[i]) :: t
    case Obj(f) => set k, t | k in f && t in Strings(f[k]) :: t
    case _ => {}
  }

  /** The strings the rules scan. */
  function Scanned(st: StepConfig): set<string> {
    {st.run, st.url, st.method_, st.timeout}
    + (if st.bodyFrom.None? then {}
       else {st.bodyFrom.value.template} + match st.bodyFrom.value.inline case Some(Str(s)) => {s} case _ => {})
    + st.headers.Values
    + (set k | k in st.inputs && st.inputs[k].Str? :: st.inputs[k].str)
    + if st.expect_.None? then {} else Strings(st.expect_.value)
  }

  /** The strings executing the step can render. */
  function Rendered(st: StepConfig): set<string> {
    if st.kind == "shell" then {st.run} + (set k | k in st.inputs && st.inputs[k].Str? :: st.inputs[k].str)
    else if st.kind == "http" then {st.url} + st.headers.Values +
      if st.bodyFrom.None? then {} else {st.bodyFrom.value.template}
    else if st.kind == "assert" then
      match st.expect_ case Some(Obj(f)) =>
        if "value" in f && f["value"].Str? then {f["value"].str} else {} case _ => {}
    else {}
  }

  lemma RenderedIsScanned(st: StepConfig)
    ensures Rendered(st) <= Scanned(st)
  {
    match st.expect_
    case Some(Obj(f)) =>
      if "value" in f && f["value"].Str? {
        assert f["value"].str in Strings(f["value"]);
      }
    case _ =>
  }

  ghost predicate Mentions(texts: set<string>, r: OutputsRef) {
    exists t :: t in texts && r in FindAll(t, 0)
  }

  // ---- Collecting the references -------------------------------------------------------------------

  method Add(s: string, refs: seq<OutputsRef>) returns (out: seq<OutputsRef>)
    ensures out == refs + FindAll(s, 0)
  {
    hide *;
    out := refs;
    var i := 0;
    while i < |s|
      invariant 0 <= i <= |s| && out + FindAll(s, i) == refs + FindAll(s, 0)
    {
      FindStep(s, i, out);
      match FindAt(s, i)
      case None => i := i + 1;
      case Some(f) => out, i := out + [f.ref], f.end;
    }
    FindEnd(s, out);
  }

  lemma FindStep(s: string, i: nat, out: seq<OutputsRef>)
    requires i < |s|
    ensures match FindAt(s, i)
            case None => FindAll(s, i) == FindAll(s, i + 1)
            case Some(f) => out + FindAll(s, i) == (out + [f.ref]) + FindAll(s, f.end)
  {
    hide FindAt;
  }

  lemma FindEnd(s: string, out: seq<OutputsRef>)
    ensures out + FindAll(s, |s|) == out
  {}

  /** Entries of a map are visited in no particular order. */
  method AddAll(texts: set<string>, refs: seq<OutputsRef>) returns (out: seq<OutputsRef>)
    ensures forall r :: r in out <==> r in refs || Mentions(texts, r)
  {
    out := refs;
    var todo := texts;
    while todo != {}
      invariant todo <= texts && forall r :: r in out <==> r in refs || Mentions(texts - todo, r)
      decreases |todo|
    {
      var t :| t in todo;
      MentionsMore(texts - todo, t);
      assert texts - (todo - {t}) == (texts - todo) + {t};
      out := Add(t, out);
      todo := todo - {t};
    }
    assert texts - todo == texts;
  }

  lemma MentionsMore(texts: set<string>, t: string)
    ensures forall r :: Mentions(texts + {t}, r) <==> Mentions(texts, r) || r in FindAll(t, 0)
  {
    forall r | Mentions(texts, r) || r in FindAll(t, 0) ensures Mentions(texts + {t}, r) {
      if Mentions(texts, r) {
        var x :| x in texts && r in FindAll(x, 0);
        assert x in texts + {t};
      } else {
        assert t in texts + {t};
      }
    }
  }

  lemma MentionsBoth(a: set<string>, b: set<string>)
    ensures forall r :: Mentions(a + b, r) <==> Mentions(a, r) || Mentions(b, r)
  {
    forall r | Mentions(a, r) || Mentions(b, r) ensures Mentions(a + b, r) {
      if Mentions(a, r) {
        var x :| x in a && r in FindAll(x, 0);
        assert x in a + b;
      } else {
        var x :| x in b && r in FindAll(x, 0);
        assert x in a + b;
      }
    }
  }

  ghost predicate MentionedIn(xs: seq<Json>, n: nat, r: OutputsRef)
    requires n <= |xs|
  {
    exists i :: 0 <= i < n && Mentions(Strings(xs[i]), r)
  }

  lemma ItemsMention(xs: seq<Json>, r: OutputsRef)
    ensures Mentions(Strings(Arr(xs)), r) <==> MentionedIn(xs, |xs|, r)
  {
    if Mentions(Strings(Arr(xs)), r) {
      var t :| t in Strings(Arr(xs)) && r in FindAll(t, 0);
      var i :| 0 <= i < |xs| && t in Strings(xs[i]);
      assert Mentions(Strings(xs[i]), r);
    }
  }

  ghost predicate MentionedUnder(f: map<string, Json>, keys: set<string>, r: OutputsRef)
    requires keys <= f.Keys
  {
    exists k :: k in keys && Mentions(Strings(f[k]), r)
  }

  lemma FieldsMention(f: map<string, Json>, r: OutputsRef)
    ensures Mentions(Strings(Obj(f)), r) <==> MentionedUnder(f, f.Keys, r)
  {
    if Mentions(Strings(Obj(f)), r) {
      var t :| t in Strings(Obj(f)) && r in FindAll(t, 0);
      var k :| k in f && t in Strings(f[k]);
      assert Mentions(Strings(f[k]), r);
    }
  }

  lemma LeafMentions(v: Json, r: OutputsRef)
    ensures v.Str? ==> (Mentions(Strings(v), r) <==> r in FindAll(v.str, 0))
    ensures !v.Str? && !v.Arr? && !v.Obj? ==> !Mentions(Strings(v), r)
  {
    if v.Str? { assert v.str in Strings(v); }
  }

  method WalkExpectStrings(v: Json, refs: seq<OutputsRef>) returns (out: seq<OutputsRef>)
    ensures forall r :: r in out <==> r in refs || Mentions(Strings(v), r)
    decreases v
  {
    hide Mentions, Strings, FindAll;
    match v
    case Str(s) =>
      out := Add(s, refs);
      forall r ensures Mentions(Strings(v), r) <==> r in FindAll(s, 0) { LeafMentions(v, r); }
    case Arr(xs) =>
      out := refs;
      for i := 0 to |xs|
        invariant forall r :: r in out <==> r in refs || MentionedIn(xs, i, r)
      {
        out := WalkExpectStrings(xs[i], out);
      }
      forall r ensures Mentions(Strings(v), r) <==> MentionedIn(xs, |xs|, r) { ItemsMention(xs, r); }
    case Obj(f) =>
      out := refs;
      var todo := f.Keys;
      while todo != {}
        invariant todo <= f.Keys && forall r :: r in out <==> r in refs || MentionedUnder(f, f.Keys - todo, r)
        decreases |todo|
      {
        var k :| k in todo;
        out := WalkExpectStrings(f[k], out);
        todo := todo - {k};
      }
      assert f.Keys - todo == f.Keys;
      forall r ensures Mentions(Strings(v), r) <==> MentionedUnder(f, f.Keys, r) { FieldsMention(f, r); }
    case _ =>
      out := refs;
      forall r ensures !Mentions(Strings(v), r) { LeafMentions(v, r); }
  }

  method StepOutputsRefsIn(st: StepConfig) returns (refs: seq<OutputsRef>)
    ensures forall r :: r in refs <==> Mentions(Scanned(st), r)
  {
    hide FindAll, Strings;
    var texts := {st.run, st.url, st.method_, st.timeout};
    if st.bodyFrom.Some? {
      texts := texts + {st.bodyFrom.value.template};
      if st.bodyFrom.value.inline.Some? && st.bodyFrom.value.inline.value.Str? {
        texts := texts + {st.bodyFrom.value.inline.value.str};
      }
    }
    texts := texts + st.headers.Values + set k | k in st.inputs && st.inputs[k].Str? :: st.inputs[k].str;
    refs := AddAll(texts, []);
    if st.expect_.Some? {
      refs := WalkExpectStrings(st.expect_.value, refs);
      MentionsBoth(texts, Strings(st.expect_.value));
    }
    assert Scanned(st) == texts + if st.expect_.Some? then Strings(st.expect_.value) else {};
  }

  // ---- The rules -----------------------------------------------------------------------------------

  predicate Unique(steps: seq<StepConfig>) {
    forall i, j :: 0 <= i < j < |steps| ==> steps[i].id != steps[j].id
  }

  method RuleStepIDsUnique(steps: seq<StepConfig>) returns (e: Option<RuleError>)
    ensures e == None <==> Unique(steps)
    ensures e.Some? ==> e.value.DuplicateID? && exists i, j ::
            0 <= i < j < |steps| && steps[i].id == steps[j].id == e.value.id
  {
    var seen: set<string> := {};
    for i := 0 to |steps|
      invariant seen == (set j | 0 <= j < i :: steps[j].id) && Unique(steps[..i])
    {
      if steps[i].id in seen {
        return Some(DuplicateID(steps[i].id));
      }
      seen := seen + {steps[i].id};
    }
    assert steps[..|steps|] == steps;
    e := None;
  }

  /** The first step with the id. */
  predicate FirstWithID(steps: seq<StepConfig>, id: string, k: int) {
    0 <= k < |steps| && steps[k].id == id && forall j :: 0 <= j < k ==> steps[j].id != id
  }

  method StepIndex(steps: seq<StepConfig>) returns (idx: map<string, nat>)
    ensures forall id :: id in idx <==> exists k :: 0 <= k < |steps| && steps[k].id == id
    ensures forall id :: id in idx ==> FirstWithID(steps, id, idx[id])
  {
    idx := map[];
    for i := 0 to |steps|
      invariant forall id :: id in idx <==> exists k :: 0 <= k < i && steps[k].id == id
      invariant forall id :: id in idx ==> FirstWithID(steps, id, idx[id])
    {
      if steps[i].id !in idx {
        idx := idx[steps[i].id := i];
      }
    }
  }

  /** The reference names a step that comes earlier. */
  ghost predicate Ordered(steps: seq<StepConfig>, i: int, r: OutputsRef) {
    exists k :: FirstWithID(steps, r.stepID, k) && k < i
  }

  method RuleInterpolationOrder(steps: seq<StepConfig>) returns (e: Option<RuleError>)
    ensures e == None <==> forall i, r :: 0 <= i < |steps| && Mentions(Scanned(steps[i]), r) ==> Ordered(steps, i, r)
    ensures e.Some? ==> (e.value.Unknown? || e.value.TooLate?) && e.value.at < |steps|
                        && Mentions(Scanned(steps[e.value.at]), e.value.ref) && !Ordered(steps, e.value.at, e.value.ref)
                        && (e.value.Unknown? <==> forall k :: 0 <= k < |steps| ==> steps[k].id != e.value.ref.stepID)
  {
    hide Mentions, Scanned;
    var idx := StepIndex(steps);
    for i := 0 to |steps|
      invariant forall j, r :: 0 <= j < i && Mentions(Scanned(steps[j]), r) ==> Ordered(steps, j, r)
    {
      var refs := StepOutputsRefsIn(steps[i]);
      for n := 0 to |refs|
        invariant forall m :: 0 <= m < n ==> Ordered(steps, i, refs[m])
      {
        var ref := refs[n];
        assert ref in refs;
        if ref.stepID !in idx {
          return Some(Unknown(i, ref));
        }
        FirstIsOne(steps, ref.stepID, idx[ref.stepID]);
        if idx[ref.stepID] >= i {
          return Some(TooLate(i, ref));
        }
      }
    }
    e := None;
  }

  lemma FirstIsOne(steps: seq<StepConfig>, id: string, k: int)
    requires FirstWithID(steps, id, k)
    ensures forall m :: FirstWithID(steps, id, m) ==> m == k
  {}

  /** The step that declares the outputs of an id: the last one that has it. */
  predicate LastWithID(steps: seq<StepConfig>, id: string, k: int) {
    0 <= k < |steps| && steps[k].id == id && forall j :: k < j < |steps| ==> steps[j].id != id
  }

  ghost predicate Declares(steps: seq<StepConfig>, r: OutputsRef) {
    forall k :: LastWithID(steps, r.stepID, k) ==> r.key in steps[k].outputs
  }

  method RuleInterpolationDeclared(steps: seq<StepConfig>) returns (e: Option<RuleError>)
    ensures e == None <==> forall i, r :: 0 <= i < |steps| && Mentions(Scanned(steps[i]), r) ==> Declares(steps, r)
    ensures e.Some? ==> e.value.Undeclared? && e.value.at < |steps|
                        && Mentions(Scanned(steps[e.value.at]), e.value.ref) && !Declares(steps, e.value.ref)
  {
    hide Mentions, Scanned, LastWithID;
    var byID := StepsByID(steps);
    for i := 0 to |steps|
      invariant forall j, r :: 0 <= j < i && Mentions(Scanned(steps[j]), r) ==> Declares(steps, r)
    {
      var refs := StepOutputsRefsIn(steps[i]);
      for n := 0 to |refs|
        invariant forall m :: 0 <= m < n ==> Declares(steps, refs[m])
      {
        var ref := refs[n];
        assert ref in refs;
        DeclaresIff(steps, byID, ref);
        if ref.stepID in byID && ref.key !in steps[byID[ref.stepID]].outputs {
          return Some(Undeclared(i, ref));
        }
      }
    }
    e := None;
  }

  ghost predicate IsLastIndex(steps: seq<StepConfig>, byID: map<string, nat>) {
    && (forall id :: id in byID <==> exists k :: 0 <= k < |steps| && steps[k].id == id)
    && forall id :: id in byID ==> LastWithID(steps, id, byID[id])
  }

  method StepsByID(steps: seq<StepConfig>) returns (byID: map<string, nat>)
    ensures IsLastIndex(steps, byID)
  {
    byID := map[];
    for i := 0 to |steps|
      invariant IsLastIndex(steps[..i], byID)
    {
      NextLast(steps, byID, i);
      byID := byID[steps[i].id := i];
    }
    assert steps[..|steps|] == steps;
  }

  lemma NextLast(steps: seq<StepConfig>, byID: map<string, nat>, i: nat)
    requires i < |steps| && IsLastIndex(steps[..i], byID)
    ensures IsLastIndex(steps[..i + 1], byID[steps[i].id := i])
  {
    var a, b, next := steps[..i], steps[..i + 1], byID[steps[i].id := i];
    assert b == a + [steps[i]];
    forall id ensures id in next <==> exists k :: 0 <= k < |b| && b[k].id == id {
      if id in next {
        if id == steps[i].id {
          assert b[i].id == id;
        } else {
          var k :| 0 <= k < |a| && a[k].id == id;
          assert b[k].id == id;
        }
      }
    }
    forall id | id in next ensures LastWithID(b, id, next[id]) {
      if id != steps[i].id { assert LastWithID(a, id, byID[id]); }
    }
  }

  lemma DeclaresIff(steps: seq<StepConfig>, byID: map<string, nat>, r: OutputsRef)
    requires IsLastIndex(steps, byID)
    ensures r.stepID in byID ==> byID[r.stepID] < |steps|
    ensures Declares(steps, r) <==> (r.stepID in byID ==> r.key in steps[byID[r.stepID]].outputs)
  {
    if r.stepID in byID {
      var k := byID[r.stepID];
      assert LastWithID(steps, r.stepID, k);
      assert forall m :: LastWithID(steps, r.stepID, m) ==> m == k;
    }
  }
}
