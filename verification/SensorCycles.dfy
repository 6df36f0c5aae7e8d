/** Rule 8: a depth-capped depth-first search over the graph of inline sensor steps and required sensors. */
module SensorCycles {
  import opened Options
  import opened Order
  import opened Graphs
  import Dag

  datatype StepRef = StepRef(kind: string, ref: Id)
  datatype Requirement = Requirement(kind: string, id: Id)
  datatype Sensor = Sensor(id: Id, steps: seq<StepRef>, requires_: seq<Requirement>)

  const MAX_DEPTH: nat := 5

  type Peers = map<Id, Sensor>

  /** The sensor whose edges are looked up for `id`; none when it is not visible. */
  function Source(s: Sensor, peers: Peers, id: Id): Option<Sensor> {
    if id == s.id then Some(s) else if id in peers then Some(peers[id]) else None
  }

  /** The ids an inline step or a requirement of `src` leads to, itself excepted. */
  function Targets(src: Sensor, id: Id): set<Id> {
    (set i | 0 <= i < |src.steps| && src.steps[i].kind == "sensor" && src.steps[i].ref != "" &&
      src.steps[i].ref != id :: src.steps[i].ref)
    + (set i | 0 <= i < |src.requires_| && src.requires_[i].kind == "sensor" && src.requires_[i].id != "" &&
      src.requires_[i].id != id :: src.requires_[i].id)
  }

  function Edges(s: Sensor, peers: Peers, id: Id): set<Id> {
    match Source(s, peers, id) case Some(src) => Targets(src, id) case None => {}
  }

  /** Consecutive nodes are joined by an edge of the visible graph. */
  ghost predicate IsTrail(s: Sensor, peers: Peers, w: seq<Id>) {
    |w| > 0 && w[0] == s.id && forall i :: 0 <= i < |w| - 1 ==> w[i + 1] in Edges(s, peers, w[i])
  }

  /** Some walk of more than MAX_DEPTH edges leaves the sensor. */
  ghost predicate HasLongWalk(s: Sensor, peers: Peers) {
    exists w :: IsTrail(s, peers, w) && |w| == MAX_DEPTH + 2
  }

  datatype Verdict = Fine | Cycle(path: seq<Id>, child: Id) | TooDeep(path: seq<Id>, child: Id)

  /** The verdict's evidence: a walk that comes back to one of its nodes, or a simple walk that is too long. */
  ghost predicate Justified(s: Sensor, peers: Peers, v: Verdict) {
    match v
    case Fine => true
    case Cycle(p, c) => IsTrail(s, peers, p + [c]) && NoDup(p) && c in p
    case TooDeep(p, c) => IsTrail(s, peers, p + [c]) && NoDup(p + [c]) && |p + [c]| == MAX_DEPTH + 2
  }

  // ---- The graph of the sensor files ---------------------------------------------------------

  /** The file that is looked at for `id`: that of the sensor itself, or of a visible peer. */
  ghost predicate IsFileOf(s: Sensor, peers: Peers, id: Id, file: Sensor) {
    (id == s.id && file == s) || (id != s.id && id in peers && file == peers[id])
  }

  /** The file of `a` names `b` in an inline sensor step or as a required sensor. */
  ghost predicate LeadsTo(s: Sensor, peers: Peers, a: Id, b: Id) {
    b != "" && b != a &&
    exists file :: IsFileOf(s, peers, a, file) &&
      (StepRef("sensor", b) in file.steps || Requirement("sensor", b) in file.requires_)
  }

  /** A chain of such references that starts at the sensor. */
  ghost predicate IsChain(s: Sensor, peers: Peers, w: seq<Id>) {
    |w| > 0 && w[0] == s.id && forall i :: 0 <= i < |w| - 1 ==> LeadsTo(s, peers, w[i], w[i + 1])
  }

  lemma EdgeIff(s: Sensor, peers: Peers, a: Id, b: Id)
    ensures b in Edges(s, peers, a) <==> LeadsTo(s, peers, a, b)
  {
    var src := Source(s, peers, a);
    assert forall file :: IsFileOf(s, peers, a, file) <==> src == Some(file);
    if src.Some? {
      TargetIff(src.value, a, b);
      hide Targets;
    }
  }

  lemma TargetIff(src: Sensor, a: Id, b: Id)
    ensures b in Targets(src, a) <==>
            b != "" && b != a && (StepRef("sensor", b) in src.steps || Requirement("sensor", b) in src.requires_)
  {
    if b != "" && b != a && StepRef("sensor", b) in src.steps {
      var i :| 0 <= i < |src.steps| && src.steps[i] == StepRef("sensor", b);
      assert src.steps[i].ref == b;
    }
    if b != "" && b != a && Requirement("sensor", b) in src.requires_ {
      var i :| 0 <= i < |src.requires_| && src.requires_[i] == Requirement("sensor", b);
      assert src.requires_[i].id == b;
    }
    if i :| 0 <= i < |src.steps| && src.steps[i].kind == "sensor" && src.steps[i].ref == b {
      assert src.steps[i] == StepRef("sensor", b);
    }
    if i :| 0 <= i < |src.requires_| && src.requires_[i].kind == "sensor" && src.requires_[i].id == b {
      assert src.requires_[i] == Requirement("sensor", b);
    }
  }

  lemma TrailIff(s: Sensor, peers: Peers, w: seq<Id>)
    ensures IsTrail(s, peers, w) <==> IsChain(s, peers, w)
  {
    hide Edges, LeadsTo;
    forall i | 0 <= i < |w| - 1 ensures w[i + 1] in Edges(s, peers, w[i]) <==> LeadsTo(s, peers, w[i], w[i + 1]) {
      EdgeIff(s, peers, w[i], w[i + 1]);
    }
  }

  // ---- Walks ---------------------------------------------------------------------------------

  lemma WalkSnoc(s: Sensor, peers: Peers, w: seq<Id>, c: Id)
    requires |w| > 0
    ensures IsTrail(s, peers, w + [c]) <==> IsTrail(s, peers, w) && c in Edges(s, peers, w[|w| - 1])
  {
    hide Edges;
    var v := w + [c];
    if IsTrail(s, peers, v) {
      forall i | 0 <= i < |w| - 1 ensures w[i + 1] in Edges(s, peers, w[i]) {
        assert v[i + 1] in Edges(s, peers, v[i]);
      }
      assert v[|w| - 1 + 1] in Edges(s, peers, v[|w| - 1]);
    }
  }

  /** From inside a set that every member can step within, a walk can be continued to any length. */
  lemma {:induction false} ExtendWithin(s: Sensor, peers: Peers, w: seq<Id>, c: set<Id>, n: nat) returns (v: seq<Id>)
    requires IsTrail(s, peers, w) && w[|w| - 1] in c && |w| <= n
    requires forall x :: x in c ==> StepsInto(s, peers, x, c)
    ensures IsTrail(s, peers, v) && |v| == n
    decreases n - |w|
  {
    if |w| == n {
      return w;
    }
    assert StepsInto(s, peers, w[|w| - 1], c);
    var y :| y in c && y in Edges(s, peers, w[|w| - 1]);
    WalkSnoc(s, peers, w, y);
    v := ExtendWithin(s, peers, w + [y], c, n);
  }

  ghost predicate StepsInto(s: Sensor, peers: Peers, x: Id, c: set<Id>) {
    exists y :: y in c && y in Edges(s, peers, x)
  }

  /** Any walk that comes back to one of its nodes can be gone round until it is too long. */
  lemma CycleMakesLongWalk(s: Sensor, peers: Peers, p: seq<Id>, child: Id)
    requires IsTrail(s, peers, p + [child]) && child in p && |p| <= MAX_DEPTH + 1
    ensures HasLongWalk(s, peers)
  {
    var i :| 0 <= i < |p| && p[i] == child;
    var c := Elems(p[i..]);
    var w := p + [child];
    forall x | x in c ensures StepsInto(s, peers, x, c) {
      var j :| 0 <= j < |p[i..]| && p[i..][j] == x;
      assert w[i + j + 1] in Edges(s, peers, w[i + j]);
      if i + j + 1 < |p| {
        assert p[i..][j + 1] == w[i + j + 1];
      } else {
        assert p[i..][0] == child;
      }
    }
    assert p[i..][0] == child;
    var v := ExtendWithin(s, peers, w, c, MAX_DEPTH + 2);
  }

  /** Long walks in the terms of the files. */
  lemma LongWalkIff(s: Sensor, peers: Peers)
    ensures HasLongWalk(s, peers) <==> exists w :: IsChain(s, peers, w) && |w| == 7
  {
    hide IsTrail, IsChain;
    if w :| IsTrail(s, peers, w) && |w| == MAX_DEPTH + 2 { TrailIff(s, peers, w); }
    if w :| IsChain(s, peers, w) && |w| == 7 { TrailIff(s, peers, w); }
  }

  /** Any chain of references, however long, that comes back to one of its sensors makes a long walk. */
  lemma ReturningChainIsLong(s: Sensor, peers: Peers, w: seq<Id>, i: nat, j: nat)
    requires IsChain(s, peers, w) && i < j < |w| && w[i] == w[j]
    ensures HasLongWalk(s, peers)
  {
    TrailIff(s, peers, w);
    if |w| >= MAX_DEPTH + 2 {
      assert IsTrail(s, peers, w[..MAX_DEPTH + 2]);
    } else {
      assert w[..j + 1] == w[..j] + [w[j]] && w[..j][i] == w[j];
      assert IsTrail(s, peers, w[..j + 1]);
      CycleMakesLongWalk(s, peers, w[..j], w[j]);
    }
  }

  /** The evidence of a verdict in the terms of the files. */
  lemma EvidenceIs(s: Sensor, peers: Peers, v: Verdict)
    requires Justified(s, peers, v) && v != Fine
    ensures IsChain(s, peers, v.path + [v.child]) && NoDup(v.path)
    ensures if v.Cycle? then v.child in v.path else v.child !in v.path && |v.path| == 6
  {
    TrailIff(s, peers, v.path + [v.child]);
    if v.TooDeep? {
      var w := v.path + [v.child];
      assert forall i :: 0 <= i < |v.path| ==> v.path[i] == w[i] && w[i] != w[|v.path|];
      assert forall i, j :: 0 <= i < j < |v.path| ==> w[i] != w[j];
    }
  }

  lemma JustifiedMeansLong(s: Sensor, peers: Peers, v: Verdict)
    requires Justified(s, peers, v) && v != Fine && (v.Cycle? ==> |v.path| <= MAX_DEPTH + 1)
    ensures HasLongWalk(s, peers)
  {
    if v.Cycle? { CycleMakesLongWalk(s, peers, v.path, v.child); }
  }

  // ---- The measure ---------------------------------------------------------------------------

  datatype Frame = Frame(id: Id, path: seq<Id>, depth: nat)

  function Power(b: nat, e: nat): nat {
    if e == 0 then 1 else b * Power(b, e - 1)
  }

  /** All ids some visible sensor leads to. */
  ghost function Universe(s: Sensor, peers: Peers): set<Id> {
    set a, b | a in peers.Keys + {s.id} && b in Edges(s, peers, a) :: b
  }

  /** One more than the greatest possible out-degree. */
  ghost function Base(s: Sensor, peers: Peers): nat {
    |Universe(s, peers)| + 1
  }

  function FrameWeight(base: nat, depth: nat): nat {
    if depth > MAX_DEPTH then 0 else Power(base, MAX_DEPTH + 1 - depth)
  }

  /** Frames near the root weigh more than all the frames they can ever be replaced by. */
  function Weight(base: nat, stack: seq<Frame>): nat {
    if stack == [] then 0 else Weight(base, stack[..|stack| - 1]) + FrameWeight(base, stack[|stack| - 1].depth)
  }

  lemma {:induction false} WeightPush(base: nat, stack: seq<Frame>, f: Frame)
    ensures Weight(base, stack + [f]) == Weight(base, stack) + FrameWeight(base, f.depth)
  {
    assert (stack + [f])[..|stack|] == stack;
  }

  lemma ChildrenWeighLess(s: Sensor, peers: Peers, id: Id, n: nat, depth: nat)
    requires n <= |Edges(s, peers, id)| && depth <= MAX_DEPTH && (n > 0 ==> depth < MAX_DEPTH)
    ensures n * FrameWeight(Base(s, peers), depth + 1) < FrameWeight(Base(s, peers), depth)
  {
    DegreeBound(s, peers, id);
    hide Edges, Base;
    FewerThanBase(Base(s, peers), n, depth);
  }

  lemma FewerThanBase(b: nat, n: nat, depth: nat)
    requires n < b && depth <= MAX_DEPTH && (n > 0 ==> depth < MAX_DEPTH)
    ensures n * FrameWeight(b, depth + 1) < FrameWeight(b, depth)
  {
    PowerPositive(b, MAX_DEPTH + 1 - depth);
    if n > 0 {
      PowerPositive(b, MAX_DEPTH - depth);
      LessFactor(n, b, Power(b, MAX_DEPTH - depth));
    }
  }

  lemma LessFactor(a: nat, b: nat, w: nat)
    requires a < b && w > 0
    ensures a * w < b * w
  {}

  lemma DegreeBound(s: Sensor, peers: Peers, id: Id)
    ensures |Edges(s, peers, id)| < Base(s, peers)
  {
    var es, u := Edges(s, peers, id), Universe(s, peers);
    assert es <= u;
    SubsetSize(es, u);
  }

  lemma {:induction false} SubsetSize(a: set<Id>, b: set<Id>)
    requires a <= b
    ensures |a| <= |b|
  {
    if a != {} {
      var x :| x in a;
      SubsetSize(a - {x}, b - {x});
    }
  }

  lemma {:induction false} PowerPositive(b: nat, e: nat)
    requires b > 0
    ensures Power(b, e) > 0
  {
    if e > 0 { PowerPositive(b, e - 1); }
  }

  // ---- The search ----------------------------------------------------------------------------

  /** `Edges` in ascending order, as the search visits them. */
  method SortedEdges(s: Sensor, peers: Peers, id: Id) returns (out: seq<Id>)
    ensures NoDup(out) && Elems(out) == Edges(s, peers, id) && Ascending(out)
  {
    hide *;
    var pool := Listed(Edges(s, peers, id));
    out := Sorted(pool);
  }

  /** The keys of a set, in no particular order. */
  method Listed(keys: set<Id>) returns (out: seq<Id>)
    ensures NoDup(out) && Elems(out) == keys
  {
    var rest := keys;
    out := [];
    while rest != {}
      invariant NoDup(out) && Elems(out) == keys - rest && rest <= keys
      decreases |rest|
    {
      var x :| x in rest;
      assert x !in Elems(out);
      assert Elems(out + [x]) == Elems(out) + {x};
      out, rest := out + [x], rest - {x};
    }
  }

  ghost predicate Ascending(out: seq<Id>) {
    forall i, j :: 0 <= i < j < |out| ==> Less(out[i], out[j])
  }

  /** `out` is ascending, below all of `rest`, and the two together are `all`. */
  ghost predicate SortedSoFar(all: set<Id>, out: seq<Id>, rest: seq<Id>) {
    && NoDup(out) && NoDup(rest) && Elems(out) + Elems(rest) == all && Ascending(out)
    && forall x, y :: x in out && y in Elems(rest) ==> Less(x, y)
  }

  method Sorted(keys: seq<Id>) returns (out: seq<Id>)
    requires NoDup(keys)
    ensures NoDup(out) && Elems(out) == Elems(keys) && Ascending(out)
  {
    var rest := keys;
    out := [];
    while rest != []
      invariant SortedSoFar(Elems(keys), out, rest)
      decreases |Elems(rest)|
    {
      hide *;
      var x, left := Dag.PopLeast(rest);
      TakeLeast(Elems(keys), out, rest, x, left);
      out, rest := out + [x], left;
    }
    assert Elems(rest) == {};
  }

  lemma TakeLeast(all: set<Id>, out: seq<Id>, rest: seq<Id>, x: Id, left: seq<Id>)
    requires SortedSoFar(all, out, rest) && IsLeast(x, Elems(rest)) && NoDup(left) && Elems(left) == Elems(rest) - {x}
    ensures SortedSoFar(all, out + [x], left) && |Elems(left)| < |Elems(rest)|
  {
    hide Less;
    assert Elems(out + [x]) == Elems(out) + {x};
    assert Elems(rest) == Elems(left) + {x};
    forall i | 0 <= i < |out| ensures Less(out[i], x) && out[i] != x {
      assert out[i] in out;
      LessTotal(x, x);
    }
  }

  /** A frame stands for a simple walk from the sensor that is not too long. */
  ghost predicate FrameOk(s: Sensor, peers: Peers, f: Frame) {
    && IsTrail(s, peers, f.path) && NoDup(f.path) && f.path[|f.path| - 1] == f.id
    && |f.path| == f.depth + 1 && f.depth <= MAX_DEPTH
  }

  ghost predicate OnStack(stack: seq<Frame>, p: seq<Id>) {
    exists i :: 0 <= i < |stack| && stack[i].path == p
  }

  ghost function WayOn(s: Sensor, peers: Peers, p: seq<Id>): set<Id> {
    if p == [] then {} else Edges(s, peers, p[|p| - 1])
  }

  /** A finished walk: short enough to go on, and every way on is finished or waiting. */
  ghost predicate Finished(s: Sensor, peers: Peers, stack: seq<Frame>, done: set<seq<Id>>, p: seq<Id>) {
    |p| > 0 && (WayOn(s, peers, p) != {} ==> |p| <= MAX_DEPTH) &&
    forall c :: c in WayOn(s, peers, p) ==> p + [c] in done || OnStack(stack, p + [c])
  }

  ghost predicate Inv(s: Sensor, peers: Peers, stack: seq<Frame>, done: set<seq<Id>>) {
    && (forall i :: 0 <= i < |stack| ==> FrameOk(s, peers, stack[i]))
    && ([s.id] in done || OnStack(stack, [s.id]))
    && forall p :: p in done ==> Finished(s, peers, stack, done, p)
  }

  lemma {:induction false} WalkIsDone(s: Sensor, peers: Peers, done: set<seq<Id>>, w: seq<Id>, n: nat)
    requires Inv(s, peers, [], done) && IsTrail(s, peers, w) && 1 <= n <= |w|
    ensures w[..n] in done
  {
    hide Edges, FrameOk;
    if n == 1 {
      assert w[..1] == [s.id];
    } else {
      WalkIsDone(s, peers, done, w, n - 1);
      assert w[n - 2 + 1] in Edges(s, peers, w[n - 2]);
      assert Finished(s, peers, [], done, w[..n - 1]);
      PrefixSnoc(w, n);
    }
  }

  lemma PrefixSnoc(w: seq<Id>, n: nat)
    requires 1 <= n <= |w|
    ensures w[..n] == w[..n - 1] + [w[n - 1]]
  {}

  /** When the stack runs out no walk is too long. */
  lemma ExhaustedMeansShort(s: Sensor, peers: Peers, done: set<seq<Id>>)
    requires Inv(s, peers, [], done)
    ensures !HasLongWalk(s, peers)
  {
    forall w | IsTrail(s, peers, w) ensures |w| <= MAX_DEPTH + 1 {
      WalkIsCut(s, peers, done, w);
    }
  }

  lemma WalkIsCut(s: Sensor, peers: Peers, done: set<seq<Id>>, w: seq<Id>)
    requires Inv(s, peers, [], done) && IsTrail(s, peers, w)
    ensures |w| <= MAX_DEPTH + 1
  {
    if |w| > 1 {
      var p, n := w[..|w| - 1], |w| - 1;
      WalkIsDone(s, peers, done, w, n);
      assert w[(n - 1) + 1] in Edges(s, peers, w[n - 1]);
      assert Finished(s, peers, [], done, p) && p[|p| - 1] == w[n - 1];
      assert w[n] in WayOn(s, peers, p);
    }
  }

  function Child(f: Frame, c: Id): Frame {
    Frame(c, f.path + [c], f.depth + 1)
  }

  /** The frames pushed for `children`, last on top. */
  function Pushed(f: Frame, children: seq<Id>): seq<Frame> {
    if children == [] then [] else Pushed(f, children[..|children| - 1]) + [Child(f, children[|children| - 1])]
  }

  lemma {:induction false} PushedAt(f: Frame, children: seq<Id>)
    ensures |Pushed(f, children)| == |children|
    ensures forall i :: 0 <= i < |children| ==> Pushed(f, children)[i] == Child(f, children[i])
  {
    if children != [] { PushedAt(f, children[..|children| - 1]); }
  }

  lemma OneMore(n: nat, w: nat)
    ensures (n + 1) * w == n * w + w
  {}

  lemma {:induction false} PushedWeight(base: nat, stack: seq<Frame>, f: Frame, children: seq<Id>)
    ensures Weight(base, stack + Pushed(f, children)) ==
            Weight(base, stack) + |children| * FrameWeight(base, f.depth + 1)
  {
    hide FrameWeight, Weight;
    if children == [] {
      assert stack + Pushed(f, children) == stack;
    } else {
      var n := |children| - 1;
      var init, c, w := children[..n], Child(f, children[n]), FrameWeight(base, f.depth + 1);
      PushedWeight(base, stack, f, init);
      assert stack + Pushed(f, children) == (stack + Pushed(f, init)) + [c];
      WeightPush(base, stack + Pushed(f, init), c);
      OneMore(n, w);
    }
  }

  /** The children looked at so far are new to the path and not too deep. */
  ghost predicate Clear(f: Frame, children: seq<Id>) {
    forall i :: 0 <= i < |children| ==> children[i] !in f.path && f.depth < MAX_DEPTH
  }

  lemma InvParts(s: Sensor, peers: Peers, stack: seq<Frame>, done: set<seq<Id>>)
    requires Inv(s, peers, stack, done)
    ensures [s.id] in done || OnStack(stack, [s.id])
    ensures forall p :: p in done ==> Finished(s, peers, stack, done, p)
  {}

  lemma InvFrom(s: Sensor, peers: Peers, stack: seq<Frame>, done: set<seq<Id>>)
    requires forall i :: 0 <= i < |stack| ==> FrameOk(s, peers, stack[i])
    requires [s.id] in done || OnStack(stack, [s.id])
    requires forall p :: p in done ==> Finished(s, peers, stack, done, p)
    ensures Inv(s, peers, stack, done)
  {}

  lemma ChildFramesOk(s: Sensor, peers: Peers, below: seq<Frame>, f: Frame, children: seq<Id>, done: set<seq<Id>>,
                      i: nat)
    requires Inv(s, peers, below + [f], done) && Elems(children) == Edges(s, peers, f.id) && Clear(f, children)
    requires i < |below + Pushed(f, children)|
    ensures FrameOk(s, peers, (below + Pushed(f, children))[i])
  {
    hide *;
    PushedAt(f, children);
    TopFrameOk(s, peers, below, f, done);
    if i < |below| {
      LowerFrameOk(s, peers, below, f, done, i);
    } else {
      ElemsHas(children, i - |below|);
      ClearAt(f, children, i - |below|);
      ChildFrameOk(s, peers, f, children[i - |below|]);
    }
  }

  lemma LowerFrameOk(s: Sensor, peers: Peers, below: seq<Frame>, f: Frame, done: set<seq<Id>>, i: nat)
    requires Inv(s, peers, below + [f], done) && i < |below|
    ensures FrameOk(s, peers, below[i])
  {
    hide FrameOk, Finished, OnStack;
    assert (below + [f])[i] == below[i];
  }

  lemma ClearAt(f: Frame, children: seq<Id>, k: nat)
    requires Clear(f, children) && k < |children|
    ensures children[k] !in f.path && f.depth < MAX_DEPTH
  {}

  lemma ChildFrameOk(s: Sensor, peers: Peers, f: Frame, c: Id)
    requires FrameOk(s, peers, f) && c in Edges(s, peers, f.id) && c !in f.path && f.depth < MAX_DEPTH
    ensures FrameOk(s, peers, Child(f, c))
  {
    hide Edges, IsTrail;
    WalkSnoc(s, peers, f.path, c);
  }

  lemma FinishedStays(s: Sensor, peers: Peers, below: seq<Frame>, f: Frame, children: seq<Id>, done: set<seq<Id>>,
                      p: seq<Id>)
    requires Inv(s, peers, below + [f], done) && p in done
    ensures Finished(s, peers, below + Pushed(f, children), done + {f.path}, p)
  {
    InvParts(s, peers, below + [f], done);
    hide Edges, OnStack, Inv, FrameOk;
    assert Finished(s, peers, below + [f], done, p);
    forall c | c in Edges(s, peers, p[|p| - 1]) && OnStack(below + [f], p + [c])
      ensures p + [c] == f.path || OnStack(below + Pushed(f, children), p + [c])
    {
      WaitingStays(below, f, children, p + [c]);
    }
  }

  lemma ParentFinished(s: Sensor, peers: Peers, below: seq<Frame>, f: Frame, children: seq<Id>, done: set<seq<Id>>)
    requires Inv(s, peers, below + [f], done) && Elems(children) == Edges(s, peers, f.id) && Clear(f, children)
    ensures Finished(s, peers, below + Pushed(f, children), done + {f.path}, f.path)
  {
    TopFrameOk(s, peers, below, f, done);
    hide Edges, OnStack, Inv, IsTrail, Pushed, NoDup, Finished;
    var stack := below + Pushed(f, children);
    forall c | c in Elems(children)
      ensures f.depth < MAX_DEPTH && OnStack(stack, f.path + [c])
    {
      ChildWaits(below, f, children, c);
    }
    AllWaiting(s, peers, stack, done + {f.path}, f.path);
  }

  lemma AllWaiting(s: Sensor, peers: Peers, stack: seq<Frame>, done: set<seq<Id>>, p: seq<Id>)
    requires |p| > 0 && (WayOn(s, peers, p) != {} ==> |p| <= MAX_DEPTH)
    requires forall c :: c in WayOn(s, peers, p) ==> OnStack(stack, p + [c])
    ensures Finished(s, peers, stack, done, p)
  {
    hide WayOn, OnStack;
  }

  /** Replacing the top frame by frames for all its children keeps the invariant... */
  lemma ExpandKeepsInv(s: Sensor, peers: Peers, below: seq<Frame>, f: Frame, children: seq<Id>, done: set<seq<Id>>)
    requires Inv(s, peers, below + [f], done) && Elems(children) == Edges(s, peers, f.id) && Clear(f, children)
    ensures Inv(s, peers, below + Pushed(f, children), done + {f.path})
  {
    hide *;
    var before, after, done' := below + [f], below + Pushed(f, children), done + {f.path};
    assert ([s.id] in done' || OnStack(after, [s.id])) by {
      hide *;
      InvParts(s, peers, before, done);
      if OnStack(before, [s.id]) { WaitingStays(below, f, children, [s.id]); }
    }
    forall i | 0 <= i < |after| ensures FrameOk(s, peers, after[i]) {
      ChildFramesOk(s, peers, below, f, children, done, i);
    }
    forall p | p in done' ensures Finished(s, peers, after, done', p) {
      if p in done {
        FinishedStays(s, peers, below, f, children, done, p);
      } else {
        ParentFinished(s, peers, below, f, children, done);
      }
    }
    InvFrom(s, peers, after, done');
  }

  lemma TopFrameOk(s: Sensor, peers: Peers, below: seq<Frame>, f: Frame, done: set<seq<Id>>)
    requires Inv(s, peers, below + [f], done)
    ensures FrameOk(s, peers, f)
  {
    assert (below + [f])[|below|] == f;
  }

  lemma WaitingStays(below: seq<Frame>, f: Frame, children: seq<Id>, p: seq<Id>)
    requires OnStack(below + [f], p)
    ensures p == f.path || OnStack(below + Pushed(f, children), p)
  {
    var i :| 0 <= i < |below + [f]| && (below + [f])[i].path == p;
    if i < |below| {
      assert (below + Pushed(f, children))[i].path == p;
    }
  }

  lemma ChildWaits(below: seq<Frame>, f: Frame, children: seq<Id>, c: Id)
    requires c in Elems(children)
    ensures OnStack(below + Pushed(f, children), f.path + [c])
  {
    PushedAt(f, children);
    var i :| 0 <= i < |children| && children[i] == c;
    assert (below + Pushed(f, children))[|below| + i].path == f.path + [c];
  }

  /** ... and makes the stack lighter. */
  lemma ExpandLightens(s: Sensor, peers: Peers, below: seq<Frame>, f: Frame, children: seq<Id>)
    requires NoDup(children) && Elems(children) == Edges(s, peers, f.id) && Clear(f, children) && f.depth <= MAX_DEPTH
    ensures Weight(Base(s, peers), below + Pushed(f, children)) < Weight(Base(s, peers), below + [f])
  {
    CountElems(children);
    if children != [] { assert children[0] !in f.path; }
    hide Edges, Base, FrameWeight;
    ChildrenWeighLess(s, peers, f.id, |children|, f.depth);
    PushedWeight(Base(s, peers), below, f, children);
    WeightPush(Base(s, peers), below, f);
  }

  lemma {:induction false} CountElems(p: seq<Id>)
    requires NoDup(p)
    ensures |Elems(p)| == |p|
  {
    if p != [] {
      var n := |p| - 1;
      CountElems(p[..n]);
      assert p == p[..n] + [p[n]];
      assert Elems(p) == Elems(p[..n]) + {p[n]};
    }
  }

  /** A child that fails a check is the evidence for the verdict. */
  lemma FailingChild(s: Sensor, peers: Peers, below: seq<Frame>, f: Frame, done: set<seq<Id>>, c: Id)
    requires Inv(s, peers, below + [f], done) && c in Edges(s, peers, f.id)
    requires c in f.path || f.depth + 1 > MAX_DEPTH
    ensures Justified(s, peers, if c in f.path then Cycle(f.path, c) else TooDeep(f.path, c)) && HasLongWalk(s, peers)
  {
    TopFrameOk(s, peers, below, f, done);
    WalkSnoc(s, peers, f.path, c);
    JustifiedMeansLong(s, peers, if c in f.path then Cycle(f.path, c) else TooDeep(f.path, c));
  }

  lemma ElemsHas(p: seq<Id>, k: nat)
    requires k < |p|
    ensures p[k] in Elems(p)
  {}

  lemma NothingPushed(below: seq<Frame>, f: Frame, children: seq<Id>)
    ensures below == below + Pushed(f, children[..0]) && Clear(f, children[..0])
  {}

  lemma PushNext(below: seq<Frame>, f: Frame, children: seq<Id>, k: nat)
    requires k < |children| && Clear(f, children[..k]) && children[k] !in f.path && f.depth < MAX_DEPTH
    ensures Clear(f, children[..k + 1])
    ensures below + Pushed(f, children[..k]) + [Frame(children[k], f.path + [children[k]], f.depth + 1)] ==
            below + Pushed(f, children[..k + 1])
  {
    var next := children[..k + 1];
    assert next[..|next| - 1] == children[..k];
    forall i | 0 <= i < |next| ensures next[i] !in f.path {
      if i < k { assert children[..k][i] == next[i]; }
    }
  }

  lemma InvStart(s: Sensor, peers: Peers)
    ensures Inv(s, peers, [Frame(s.id, [s.id], 0)], {}) && Justified(s, peers, Fine)
  {
    assert [Frame(s.id, [s.id], 0)][0].path == [s.id];
  }

  /** Accepts exactly the sensors no walk of six edges leaves; otherwise names a real cycle or a real chain. */
  method RuleSensorCycles(s: Sensor, peers: Peers) returns (v: Verdict)
    ensures v.Fine? <==> !exists w :: IsChain(s, peers, w) && |w| == 7
    ensures forall w, i, j :: IsChain(s, peers, w) && 0 <= i < j < |w| && w[i] == w[j] ==> !v.Fine?
    ensures !v.Fine? ==>
              && IsChain(s, peers, v.path + [v.child]) && NoDup(v.path)
              && if v.Cycle? then v.child in v.path else v.child !in v.path && |v.path| == 6
  {
    v := SearchFrom(s, peers);
    LongWalkIff(s, peers);
    if v != Fine {
      EvidenceIs(s, peers, v);
    }
    hide *;
    forall w, i, j | IsChain(s, peers, w) && 0 <= i < j < |w| && w[i] == w[j] ensures !v.Fine? {
      ReturningChainIsLong(s, peers, w, i, j);
    }
  }

  method SearchFrom(s: Sensor, peers: Peers) returns (v: Verdict)
    ensures v.Fine? <==> !HasLongWalk(s, peers)
    ensures Justified(s, peers, v)
  {
    hide *;
    var stack := [Frame(s.id, [s.id], 0)];
    ghost var done: set<seq<Id>> := {};
    InvStart(s, peers);
    while stack != []
      invariant Inv(s, peers, stack, done)
      decreases Weight(Base(s, peers), stack)
    {
      var frame, below := stack[|stack| - 1], stack[..|stack| - 1];
      assert stack == below + [frame];
      var children := SortedEdges(s, peers, frame.id);
      stack := below;
      NothingPushed(below, frame, children);
      for k := 0 to |children|
        invariant stack == below + Pushed(frame, children[..k]) && Clear(frame, children[..k])
      {
        var child := children[k];
        ElemsHas(children, k);
        if child in frame.path {
          FailingChild(s, peers, below, frame, done, child);
          return Cycle(frame.path, child);
        }
        if frame.depth + 1 > MAX_DEPTH {
          FailingChild(s, peers, below, frame, done, child);
          return TooDeep(frame.path, child);
        }
        PushNext(below, frame, children, k);
        stack := stack + [Frame(child, frame.path + [child], frame.depth + 1)];
      }
      assert children[..|children|] == children;
      TopFrameOk(s, peers, below, frame, done);
      ExpandKeepsInv(s, peers, below, frame, children, done);
      ExpandLightens(s, peers, below, frame, children);
      done := done + {frame.path};
    }
    ExhaustedMeansShort(s, peers, done);
    v := Fine;
  }
}
