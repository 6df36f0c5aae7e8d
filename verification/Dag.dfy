/** Dependency resolution: the transitive closure of a sensor's requires and Kahn's algorithm over it. */
module Dag {
  import opened Options
  import opened Order
  import opened Graphs

  /** What the orchestrator reads from one sensor file: the ids it requires and whether it blocks. */
  datatype SensorFile = SensorFile(deps: seq<Id>, blocking: bool)
  datatype Sensor = Sensor(id: Id, file: SensorFile)

  /** Lookup key to parsed file; a key outside the map is a sensor that cannot be read. */
  type Files = map<Id, SensorFile>

  datatype Error =
    | Unreadable(id: Id)
    | VisitingCycle(id: Id)
    | SelfLoop(id: Id)
    | CycleDetected(resolved: nat, total: nat)
    | NotAtRoot

  datatype Result<T> = Ok(value: T) | Err(error: Error)

  function DepGraph(files: Files): Graph {
    map k | k in files :: files[k].deps
  }

  /** Everything reachable from the root can be read and none of it lies on a cycle. */
  ghost predicate Resolvable(files: Files, root: Id) {
    forall x :: Reaches(DepGraph(files), root, x) ==> x in files && !OnCycle(DepGraph(files), x)
  }

  // ---- Loading the closure -------------------------------------------------------------------

  /** Both maps hold what the files say about the registered sensors. */
  ghost predicate Faithful(files: Files, sensors: map<Id, Sensor>, deps: Graph) {
    && sensors.Keys == deps.Keys
    && forall k :: k in sensors ==> k in files && sensors[k] == Sensor(k, files[k]) && deps[k] == files[k].deps
  }

  /** The sensors registered between `before` and `after` are all reachable from `id`. */
  ghost predicate GrewFrom(g: Graph, id: Id, before: set<Id>, after: set<Id>) {
    before <= after && forall x :: x in after - before ==> Reaches(g, id, x)
  }

  /** Those of `ids` require only registered sensors, and not themselves. */
  ghost predicate Settled(g: Graph, ids: set<Id>, registered: set<Id>) {
    forall x, d :: x in ids && Edge(g, x, d) ==> d != x && d in registered
  }

  class Loader {
    var sensors: map<Id, Sensor>
    var deps: Graph
    var visiting: set<Id>

    constructor ()
      ensures sensors == map[] && deps == map[] && visiting == {}
    {
      sensors, deps, visiting := map[], map[], {};
    }

    /** Register `id` and, depth first, everything it requires. */
    method LoadRecursive(files: Files, id: Id, ghost g: Graph) returns (err: Option<Error>)
      requires g == DepGraph(files) && Faithful(files, sensors, deps)
      modifies this
      ensures Faithful(files, sensors, deps) && visiting == old(visiting)
      ensures GrewFrom(g, id, old(sensors.Keys), sensors.Keys)
      ensures err.None? ==> id in sensors && Settled(g, sensors.Keys - old(sensors.Keys), sensors.Keys)
      ensures err.Some? ==>
                match err.value
                case Unreadable(x) => Reaches(g, id, x) && x !in files
                case SelfLoop(x) => Reaches(g, id, x) && Edge(g, x, x)
                case VisitingCycle(x) => !(old(visiting) <= old(sensors.Keys))
                case _ => false
      decreases files.Keys - sensors.Keys
    {
      hide *;
      ghost var before := sensors.Keys;
      ReachesSelf(g, id);
      if id in sensors {
        NothingLoaded(g, id, before);
        return None;
      }
      if id in visiting {
        NothingLoaded(g, id, before);
        return Some(VisitingCycle(id));
      }
      visiting := visiting + {id};
      if id !in files {
        visiting := visiting - {id};
        NothingLoaded(g, id, before);
        return Some(Unreadable(id));
      }
      Registered(files, g, id, sensors, deps);
      sensors := sensors[id := Sensor(id, files[id])];
      var depIDs := files[id].deps;
      deps := deps[id := depIDs];
      for i := 0 to |depIDs|
        invariant Faithful(files, sensors, deps) && visiting == old(visiting) + {id}
        invariant id in sensors && GrewFrom(g, id, before, sensors.Keys)
        invariant Settled(g, sensors.Keys - before - {id}, sensors.Keys)
        invariant forall j :: 0 <= j < i ==> depIDs[j] != id && depIDs[j] in sensors
      {
        EdgeOf(files, g, id, i);
        if depIDs[i] == id {
          visiting := visiting - {id};
          return Some(SelfLoop(id));
        }
        ghost var mid := sensors.Keys;
        ShrinksBelow(files, before, mid, id);
        KeysGrow(g, id, before, mid);
        var e := LoadRecursive(files, depIDs[i], g);
        LoadedDep(g, id, depIDs[i], before, mid, sensors.Keys);
        if e.Some? {
          visiting := visiting - {id};
          return e;
        }
        SettledDep(g, id, before, mid, sensors.Keys);
      }
      SettledRoot(files, g, id, before, sensors.Keys);
      visiting := visiting - {id};
      return None;
    }
  }

  lemma NothingLoaded(g: Graph, id: Id, before: set<Id>)
    ensures GrewFrom(g, id, before, before) && Settled(g, before - before, before)
  {}

  lemma Registered(files: Files, g: Graph, id: Id, sensors: map<Id, Sensor>, deps: Graph)
    requires Faithful(files, sensors, deps) && g == DepGraph(files) && id in files && id !in sensors
    ensures Faithful(files, sensors[id := Sensor(id, files[id])], deps[id := files[id].deps])
    ensures GrewFrom(g, id, sensors.Keys, sensors[id := Sensor(id, files[id])].Keys)
    ensures Settled(g, sensors[id := Sensor(id, files[id])].Keys - sensors.Keys - {id},
            sensors[id := Sensor(id, files[id])].Keys)
  {
    ReachesSelf(g, id);
  }

  lemma EdgeOf(files: Files, g: Graph, id: Id, i: nat)
    requires g == DepGraph(files) && id in files && i < |files[id].deps|
    ensures Edge(g, id, files[id].deps[i])
  {}

  lemma ShrinksBelow(files: Files, before: set<Id>, mid: set<Id>, id: Id)
    ensures before <= mid && id in files && id !in before && id in mid ==>
              files.Keys - mid < files.Keys - before
  {
    if before <= mid && id in files && id !in before && id in mid {
      assert id in files.Keys - before && id !in files.Keys - mid;
    }
  }

  lemma KeysGrow(g: Graph, id: Id, before: set<Id>, after: set<Id>)
    requires GrewFrom(g, id, before, after)
    ensures before <= after
  {}

  lemma LoadedDep(g: Graph, id: Id, d: Id, before: set<Id>, mid: set<Id>, after: set<Id>)
    requires Edge(g, id, d) && GrewFrom(g, id, before, mid) && GrewFrom(g, d, mid, after)
    ensures mid <= after && GrewFrom(g, id, before, after)
    ensures forall x :: Reaches(g, d, x) ==> Reaches(g, id, x)
  {
    ReachesThroughDep(g, id, d);
  }

  lemma SettledDep(g: Graph, id: Id, before: set<Id>, mid: set<Id>, after: set<Id>)
    requires before <= mid <= after
    requires Settled(g, mid - before - {id}, mid) && Settled(g, after - mid, after)
    ensures Settled(g, after - before - {id}, after)
  {
    forall x, d | x in after - before - {id} && Edge(g, x, d) ensures d != x && d in after {
      assert x in mid - before - {id} || x in after - mid;
    }
  }

  lemma SettledRoot(files: Files, g: Graph, id: Id, before: set<Id>, after: set<Id>)
    requires g == DepGraph(files) && id in files
    requires Settled(g, after - before - {id}, after)
    requires forall d :: d in files[id].deps ==> d != id && d in after
    ensures Settled(g, after - before, after)
  {
    forall x, d | x in after - before && Edge(g, x, d) ensures d != x && d in after {
      assert x == id || x in after - before - {id};
    }
  }

  lemma ReachesThroughDep(g: Graph, a: Id, d: Id)
    requires Edge(g, a, d)
    ensures forall x :: Reaches(g, d, x) ==> Reaches(g, a, x)
  {
    ReachesByEdge(g, a, d);
    forall x | Reaches(g, d, x) ensures Reaches(g, a, x) {
      ReachesTransitive(g, a, d, x);
    }
  }

  // ---- The order Kahn's algorithm must produce -----------------------------------------------

  /** Sensors not yet listed whose dependencies all are. */
  ghost function Ready(g: Graph, done: set<Id>): set<Id> {
    set x | x in g && x !in done && forall d :: d in g[x] ==> d in done
  }

  /** Every element is the smallest one ready given the elements before it. */
  ghost predicate SmallestFirst(g: Graph, order: seq<Id>) {
    forall i :: 0 <= i < |order| ==> IsLeast(order[i], Ready(g, Elems(order[..i])))
  }

  /** A smallest-first order that cannot be continued. */
  ghost predicate IsKahnOrder(g: Graph, order: seq<Id>) {
    SmallestFirst(g, order) && Ready(g, Elems(order)) == {}
  }

  /** There is only one such order, whatever order the maps are iterated in. */
  lemma KahnOrderUnique(g: Graph, a: seq<Id>, b: seq<Id>)
    requires IsKahnOrder(g, a) && IsKahnOrder(g, b)
    ensures a == b
  {
    var n := if |a| <= |b| then |a| else |b|;
    CommonPrefix(g, a, b, n);
    assert a[..|a|] == a && b[..|b|] == b;
    if |a| < |b| {
      PrefixHasReady(g, a, b);
    } else if |b| < |a| {
      PrefixHasReady(g, b, a);
    }
  }

  lemma PrefixHasReady(g: Graph, a: seq<Id>, b: seq<Id>)
    requires SmallestFirst(g, b) && a < b
    ensures Ready(g, Elems(a)) != {}
  {
    assert b[..|a|] == a;
    assert IsLeast(b[|a|], Ready(g, Elems(b[..|a|])));
  }

  lemma {:induction false} CommonPrefix(g: Graph, a: seq<Id>, b: seq<Id>, n: nat)
    requires SmallestFirst(g, a) && SmallestFirst(g, b) && n <= |a| && n <= |b|
    ensures a[..n] == b[..n]
  {
    if n > 0 {
      CommonPrefix(g, a, b, n - 1);
      LeastUnique(a[n - 1], b[n - 1], Ready(g, Elems(a[..n - 1])));
      assert a[..n] == a[..n - 1] + [a[n - 1]] && b[..n] == b[..n - 1] + [b[n - 1]];
    }
  }

  /** In a smallest-first order nothing repeats and every dependency comes earlier. */
  lemma SmallestFirstIsTopological(g: Graph, order: seq<Id>)
    requires SmallestFirst(g, order)
    ensures NoDup(order) && forall x :: x in order ==> x in g
    ensures forall i, d :: 0 <= i < |order| && d in g[order[i]] ==> d in order[..i]
  {
    forall i | 0 <= i < |order| ensures order[i] in Ready(g, Elems(order[..i])) {
      assert IsLeast(order[i], Ready(g, Elems(order[..i])));
    }
    forall i, j | 0 <= i < j < |order| ensures order[i] != order[j] {
      assert order[..j][i] == order[i];
      assert order[i] in Elems(order[..j]);
    }
  }

  lemma ListedIsClosed(g: Graph, order: seq<Id>)
    requires SmallestFirst(g, order)
    ensures Closed(g, Elems(order))
  {
    SmallestFirstIsTopological(g, order);
    forall a, b | a in Elems(order) && Edge(g, a, b) ensures b in Elems(order) {
      var i :| 0 <= i < |order| && order[i] == a;
      assert b in order[..i];
    }
  }

  lemma {:induction false} TopologicalHasNoCycle(g: Graph, order: seq<Id>, i: nat)
    requires SmallestFirst(g, order) && i < |order|
    ensures !OnCycle(g, order[i])
  {
    SmallestFirstIsTopological(g, order);
    if OnCycle(g, order[i]) {
      var s := Elems(order[..i]);
      forall a, b | a in s && Edge(g, a, b) ensures b in s {
        var k :| 0 <= k < i && order[k] == a;
        assert b in order[..k];
      }
      var d :| Edge(g, order[i], d) && Reaches(g, d, order[i]);
      assert d in order[..i];
      ClosedHoldsReachable(g, s, d, order[i]);
      assert false;
    }
  }

  /** The order lists exactly the sensors that reach no cycle. */
  lemma KahnListsAcyclicPart(g: Graph, order: seq<Id>)
    requires IsKahnOrder(g, order) && Closed(g, g.Keys)
    ensures NoDup(order) && Elems(order) == set x | x in g && !ReachesCycle(g, x)
  {
    SmallestFirstIsTopological(g, order);
    ListedIsClosed(g, order);
    var rest := g.Keys - Elems(order);
    forall x | x in order ensures x in g && !ReachesCycle(g, x) {
      forall y | Reaches(g, x, y) ensures !OnCycle(g, y) {
        ClosedHoldsReachable(g, Elems(order), x, y);
        var i :| 0 <= i < |order| && order[i] == y;
        TopologicalHasNoCycle(g, order, i);
      }
    }
    forall a | a in rest ensures HasEdgeInto(g, a, rest) {
      assert a !in Ready(g, Elems(order));
      var d :| d in g[a] && d !in Elems(order);
      assert Edge(g, a, d);
    }
    forall x | x in rest ensures ReachesCycle(g, x) {
      StuckReachesCycle(g, rest, x);
    }
  }

  /** The order lists every sensor of a closed graph exactly when the graph has no cycle. */
  lemma KahnCompleteIffAcyclic(g: Graph, order: seq<Id>)
    requires IsKahnOrder(g, order) && Closed(g, g.Keys)
    ensures |order| == |g| <==> Elems(order) == g.Keys
    ensures |order| == |g| <==> forall x :: x in g ==> !OnCycle(g, x)
  {
    KahnListsAcyclicPart(g, order);
    NoDupLength(order, g.Keys);
    NoDupLength(order, Elems(order));
    assert |g.Keys| == |g|;
    SubsetLength(Elems(order), g.Keys);
    hide Reaches, OnCycle, IsKahnOrder, NoDup;
    forall x | x in g && OnCycle(g, x) ensures ReachesCycle(g, x) {
      ReachesSelf(g, x);
    }
    forall x, y | x in g && Reaches(g, x, y) ensures y in g {
      ClosedHoldsReachable(g, g.Keys, x, y);
    }
  }

  lemma SubsetLength(a: set<Id>, b: set<Id>)
    requires a <= b
    ensures |a| == |b| <==> a == b
  {
    assert |b - a| == |b| - |a|;
    if |a| == |b| { assert b - a == {}; }
  }

  /** When everything is reachable from the root, a complete order ends there. */
  lemma RootComesLast(g: Graph, order: seq<Id>, root: Id)
    requires IsKahnOrder(g, order) && Closed(g, g.Keys) && |order| == |g| && root in g
    requires forall x :: x in g ==> Reaches(g, root, x)
    ensures order[|order| - 1] == root
  {
    KahnCompleteIffAcyclic(g, order);
    SmallestFirstIsTopological(g, order);
    var i :| 0 <= i < |order| && order[i] == root;
    var s := Elems(order[..i + 1]);
    forall a, b | a in s && Edge(g, a, b) ensures b in s {
      var k :| 0 <= k < i + 1 && order[k] == a;
      assert b in order[..k];
    }
    assert order[..i + 1][i] == root;
    var last := order[|order| - 1];
    ClosedHoldsReachable(g, s, root, last);
    var k :| 0 <= k < i + 1 && order[k] == last;
  }

  // ---- Kahn's algorithm ----------------------------------------------------------------------

  function Lookup(m: Graph, k: Id): seq<Id> {
    if k in m then m[k] else []
  }

  /** How many entries of `ds` are not in `done`: the in-degree still to be consumed. */
  ghost function Pending(ds: seq<Id>, done: set<Id>): nat {
    if ds == [] then 0
    else Pending(ds[..|ds| - 1], done) + if ds[|ds| - 1] in done then 0 else 1
  }

  lemma {:induction false} PendingZero(ds: seq<Id>, done: set<Id>)
    ensures Pending(ds, done) == 0 <==> forall d :: d in ds ==> d in done
  {
    if ds != [] {
      PendingZero(ds[..|ds| - 1], done);
      assert ds == ds[..|ds| - 1] + [ds[|ds| - 1]];
    }
  }

  lemma {:induction false} PendingNone(ds: seq<Id>)
    ensures Pending(ds, {}) == |ds|
  {
    if ds != [] {
      PendingNone(ds[..|ds| - 1]);
    }
  }

  lemma {:induction false} PendingAfter(ds: seq<Id>, done: set<Id>, x: Id)
    requires x !in done
    ensures Pending(ds, done) == Pending(ds, done + {x}) + multiset(ds)[x]
  {
    if ds != [] {
      PendingAfter(ds[..|ds| - 1], done, x);
      assert ds == ds[..|ds| - 1] + [ds[|ds| - 1]];
    }
  }

  /** How often `x` is recorded as a dependent of `d`. */
  ghost function Recorded(dependents: Graph, d: Id, x: Id): nat {
    multiset(Lookup(dependents, d))[x]
  }

  lemma RecordOne(dependents: Graph, d: Id, id: Id)
    ensures forall e, x :: Recorded(dependents[d := Lookup(dependents, d) + [id]], e, x) ==
                             Recorded(dependents, e, x) + if e == d && x == id then 1 else 0
  {}

  lemma CountOne(ds: seq<Id>, j: nat)
    requires j < |ds|
    ensures forall d :: multiset(ds[..j + 1])[d] == multiset(ds[..j])[d] + if d == ds[j] then 1 else 0
  {
    assert ds[..j + 1] == ds[..j] + [ds[j]];
  }

  method AddEdges(id: Id, ds: seq<Id>, indegree: map<Id, nat>, dependents: Graph)
    returns (indegree': map<Id, nat>, dependents': Graph)
    requires id in indegree
    ensures indegree' == indegree[id := indegree[id] + |ds|]
    ensures forall d, x :: Recorded(dependents', d, x) ==
                             Recorded(dependents, d, x) + if x == id then multiset(ds)[d] else 0
  {
    indegree', dependents' := indegree, dependents;
    hide Recorded;
    for j := 0 to |ds|
      invariant indegree' == indegree[id := indegree[id] + j]
      invariant forall d, x :: Recorded(dependents', d, x) ==
                                 Recorded(dependents, d, x) + if x == id then multiset(ds[..j])[d] else 0
    {
      RecordOne(dependents', ds[j], id);
      CountOne(ds, j);
      indegree' := indegree'[id := indegree'[id] + 1];
      dependents' := dependents'[ds[j] := Lookup(dependents', ds[j]) + [id]];
    }
    assert ds[..|ds|] == ds;
  }

  method CountEdges(deps: Graph) returns (indegree: map<Id, nat>, dependents: Graph)
    ensures indegree.Keys == deps.Keys
    ensures forall x :: x in deps ==> indegree[x] == |deps[x]|
    ensures forall d, x :: Recorded(dependents, d, x) == multiset(Lookup(deps, x))[d]
  {
    indegree := map x | x in deps :: 0;
    dependents := map[];
    var todo := deps.Keys;
    while todo != {}
      invariant todo <= deps.Keys && indegree.Keys == deps.Keys
      invariant forall x :: x in deps ==> indegree[x] == if x in todo then 0 else |deps[x]|
      invariant forall d, x :: Recorded(dependents, d, x) == if x in todo then 0 else multiset(Lookup(deps, x))[d]
    {
      var id :| id in todo;
      indegree, dependents := AddEdges(id, deps[id], indegree, dependents);
      todo := todo - {id};
    }
  }

  method CollectReady(indegree: map<Id, nat>) returns (queue: seq<Id>)
    ensures NoDup(queue)
    ensures forall x :: x in queue <==> x in indegree && indegree[x] == 0
  {
    queue := [];
    var todo := indegree.Keys;
    while todo != {}
      invariant todo <= indegree.Keys && NoDup(queue)
      invariant forall x :: x in queue <==> x in indegree && x !in todo && indegree[x] == 0
    {
      var id :| id in todo;
      if indegree[id] == 0 {
        queue := queue + [id];
      }
      todo := todo - {id};
    }
  }

  method PopLeast(queue: seq<Id>) returns (id: Id, rest: seq<Id>)
    requires queue != [] && NoDup(queue)
    ensures IsLeast(id, Elems(queue))
    ensures forall x :: x in queue && x != id ==> exists k :: SmallerFrom(id, x, k)
    ensures NoDup(rest) && Elems(rest) == Elems(queue) - {id}
  {
    var minIdx := 0;
    for i := 0 to |queue|
      invariant 0 <= minIdx < |queue|
      invariant forall j :: 0 <= j < i ==> queue[j] == queue[minIdx] || Less(queue[minIdx], queue[j])
    {
      if Less(queue[i], queue[minIdx]) {
        forall j | 0 <= j < i ensures Less(queue[i], queue[j]) {
          if queue[j] != queue[minIdx] { LessTransitive(queue[i], queue[minIdx], queue[j]); }
        }
        minIdx := i;
      } else {
        LessTotal(queue[i], queue[minIdx]);
      }
    }
    id := queue[minIdx];
    forall x | x in queue && x != id ensures exists k :: SmallerFrom(id, x, k) {
      LessIff(id, x);
    }
    rest := queue[..minIdx] + queue[minIdx + 1..];
    forall x | x in Elems(queue) - {id} ensures x in Elems(rest) {
      var k :| 0 <= k < |queue| && queue[k] == x;
      assert rest[if k < minIdx then k else k - 1] == x;
    }
  }

  /** Consume one in-degree per listed dependent and enqueue those that reach zero. */
  method Release(indegree: map<Id, nat>, ds: seq<Id>, queue: seq<Id>)
    returns (indegree': map<Id, nat>, queue': seq<Id>)
    requires forall x :: x in ds ==> x in indegree
    requires forall x :: x in indegree ==> multiset(ds)[x] <= indegree[x]
    requires NoDup(queue) && forall x :: x in queue ==> x !in ds
    ensures indegree'.Keys == indegree.Keys
    ensures forall x :: x in indegree ==> indegree'[x] + multiset(ds)[x] == indegree[x]
    ensures NoDup(queue') && forall x :: x in queue' <==> x in queue || (x in ds && indegree'[x] == 0)
  {
    indegree', queue' := indegree, queue;
    for t := 0 to |ds|
      invariant indegree'.Keys == indegree.Keys
      invariant forall x :: x in indegree ==> indegree'[x] + multiset(ds[..t])[x] == indegree[x]
      invariant NoDup(queue') && forall x :: x in queue' <==> x in queue || (x in ds[..t] && indegree'[x] == 0)
    {
      var x := ds[t];
      assert ds == ds[..t] + [x] + ds[t + 1..];
      assert ds[..t + 1] == ds[..t] + [x];
      assert indegree'[x] > 0;
      indegree' := indegree'[x := indegree'[x] - 1];
      if indegree'[x] == 0 {
        queue' := queue' + [x];
      }
    }
    assert ds[..|ds|] == ds;
  }

  lemma ReadyByPending(g: Graph, done: set<Id>)
    ensures Ready(g, done) == set x | x in g && x !in done && Pending(g[x], done) == 0
  {
    forall x | x in g ensures Pending(g[x], done) == 0 <==> forall d :: d in g[x] ==> d in done {
      PendingZero(g[x], done);
    }
  }

  /** Listing `id` lowers each sensor's pending count by the number of times it requires `id`. */
  lemma PendingStep(g: Graph, done: set<Id>, id: Id, ds: seq<Id>)
    requires id !in done
    requires forall x :: multiset(ds)[x] == multiset(Lookup(g, x))[id]
    ensures forall x :: x in g ==> Pending(g[x], done) == Pending(g[x], done + {id}) + multiset(ds)[x]
  {
    forall x | x in g ensures Pending(g[x], done) == Pending(g[x], done + {id}) + multiset(ds)[x] {
      PendingAfter(g[x], done, id);
    }
  }

  /** The queue after a pop and its releases holds exactly the sensors that are ready next. */
  lemma QueueStep(g: Graph, ids: seq<Id>, id: Id, ds: seq<Id>, next: set<Id>)
    requires SmallestFirst(g, ids) && id in Ready(g, Elems(ids))
    requires forall x :: multiset(ds)[x] == multiset(Lookup(g, x))[id]
    requires forall x :: x in next <==>
                           (x in Ready(g, Elems(ids)) && x != id) ||
                           (x in ds && x in g && Pending(g[x], Elems(ids) + {id}) == 0)
    ensures next == Ready(g, Elems(ids) + {id})
  {
    var done := Elems(ids);
    ReadyAfterPop(g, ids, id);
    hide SmallestFirst, Pending, Elems, Ready;
    ReadyByPending(g, done);
    ReadyByPending(g, done + {id});
    PendingStep(g, done, id, ds);
    forall x ensures x in next <==> x in Ready(g, done + {id}) {
      if x in g {
        assert x in ds <==> multiset(ds)[x] > 0;
        assert multiset(ds)[x] == multiset(g[x])[id];
        assert Pending(g[x], done) == Pending(g[x], done + {id}) + multiset(ds)[x];
      }
    }
  }

  /** Nothing listed, nor `id` itself, requires a sensor that is ready only now. */
  lemma ReadyAfterPop(g: Graph, ids: seq<Id>, id: Id)
    requires SmallestFirst(g, ids) && id in Ready(g, Elems(ids))
    ensures id in g && id !in Elems(ids) && id !in g[id]
    ensures forall x :: x in g && x in Elems(ids) ==> id !in g[x]
  {
    ListedIsClosed(g, ids);
    hide SmallestFirst, Elems;
    forall x | x in g && x in Elems(ids) ensures id !in g[x] {
      assert id in g[x] ==> Edge(g, x, id);
    }
  }

  /** `r` is the outcome of sorting when the smallest-first order of the graph is `order`. */
  ghost predicate SortsTo(rootID: Id, sensors: map<Id, Sensor>, order: seq<Id>, r: Result<seq<Sensor>>) {
    if |order| != |sensors| then r == Err(CycleDetected(|order|, |sensors|))
    else if |order| == 0 || order[|order| - 1] != rootID then r == Err(NotAtRoot)
    else r.Ok? && |r.value| == |order| &&
         forall i :: 0 <= i < |order| ==> order[i] in sensors && r.value[i] == sensors[order[i]]
  }

  /** What holds between two pops: in-degrees count unlisted dependencies and the queue is what is ready. */
  ghost predicate KahnInv(deps: Graph, indegree: map<Id, nat>, queue: seq<Id>, order: seq<Id>) {
    && indegree.Keys == deps.Keys
    && (forall x :: x in deps ==> indegree[x] == Pending(deps[x], Elems(order)))
    && NoDup(queue) && Elems(queue) == Ready(deps, Elems(order))
    && SmallestFirst(deps, order)
  }

  lemma KahnStart(deps: Graph, indegree: map<Id, nat>, queue: seq<Id>)
    requires indegree.Keys == deps.Keys && forall x :: x in deps ==> indegree[x] == |deps[x]|
    requires NoDup(queue) && forall x :: x in queue <==> x in indegree && indegree[x] == 0
    ensures KahnInv(deps, indegree, queue, [])
  {
    assert Elems([]) == {};
    forall x | x in deps ensures indegree[x] == Pending(deps[x], {}) {
      PendingNone(deps[x]);
    }
    ReadyByPending(deps, {});
  }

  method KahnStep(deps: Graph, dependents: Graph, indegree: map<Id, nat>, queue: seq<Id>, ghost order: seq<Id>)
    returns (id: Id, indegree': map<Id, nat>, queue': seq<Id>)
    requires KahnInv(deps, indegree, queue, order) && queue != []
    requires forall d, x :: Recorded(dependents, d, x) == multiset(Lookup(deps, x))[d]
    ensures id in deps && id !in order && KahnInv(deps, indegree', queue', order + [id])
  {
    var rest;
    id, rest := PopLeast(queue);
    var ds := Lookup(dependents, id);
    ghost var done := Elems(order);
    assert forall x :: multiset(ds)[x] == Recorded(dependents, id, x);
    PendingStep(deps, done, id, ds);
    ReleaseApplies(deps, indegree, queue, order, id, ds);
    ElemsOf(rest);
    ElemsOf(queue);
    hide *;
    indegree', queue' := Release(indegree, ds, rest);
    KahnAdvances(deps, indegree, queue, order, id, ds, rest, indegree', queue');
  }

  lemma KahnAdvances(deps: Graph, indegree: map<Id, nat>, queue: seq<Id>, order: seq<Id>, id: Id, ds: seq<Id>,
                     rest: seq<Id>, indegree': map<Id, nat>, queue': seq<Id>)
    requires KahnInv(deps, indegree, queue, order) && IsLeast(id, Elems(queue))
    requires forall x :: multiset(ds)[x] == multiset(Lookup(deps, x))[id]
    requires Elems(rest) == Elems(queue) - {id}
    requires indegree'.Keys == indegree.Keys && NoDup(queue')
    requires forall x :: x in indegree ==> indegree'[x] + multiset(ds)[x] == indegree[x]
    requires forall x :: x in queue' <==> x in rest || (x in ds && x in indegree && indegree'[x] == 0)
    ensures id in deps && id !in order && KahnInv(deps, indegree', queue', order + [id])
  {
    var done := Elems(order);
    SmallestFirstAppend(deps, order, id);
    assert Elems(order + [id]) == done + {id};
    assert id in Ready(deps, done);
    PendingStep(deps, done, id, ds);
    ElemsOf(queue');
    ElemsOf(rest);
    hide Pending, Elems, SmallestFirst;
    QueueStep(deps, order, id, ds, Elems(queue'));
  }

  lemma ElemsOf(p: seq<Id>)
    ensures forall x :: x in p <==> x in Elems(p)
  {}

  lemma ReleaseApplies(deps: Graph, indegree: map<Id, nat>, queue: seq<Id>, order: seq<Id>, id: Id, ds: seq<Id>)
    requires KahnInv(deps, indegree, queue, order) && id in queue
    requires forall x :: multiset(ds)[x] == multiset(Lookup(deps, x))[id]
    ensures id in Ready(deps, Elems(order))
    ensures forall x :: x in ds ==> x in deps && x !in queue
    ensures forall x :: x in deps ==> multiset(ds)[x] <= indegree[x]
  {
    var done := Elems(order);
    assert id in Elems(queue);
    PendingStep(deps, done, id, ds);
    ReadyByPending(deps, done);
    forall x | x in ds ensures x in deps && x !in queue {
      assert multiset(ds)[x] > 0;
      assert x in queue ==> x in Elems(queue);
    }
  }

  method TopoSort(rootID: Id, sensors: map<Id, Sensor>, deps: Graph) returns (r: Result<seq<Sensor>>)
    requires sensors.Keys == deps.Keys && rootID in sensors
    requires forall k :: k in sensors ==> sensors[k].id == k
    ensures exists order :: IsKahnOrder(deps, order) && SortsTo(rootID, sensors, order, r)
  {
    hide *;
    var indegree, dependents := CountEdges(deps);
    var queue := CollectReady(indegree);
    var out: seq<Sensor> := [];
    ghost var order: seq<Id> := [];
    KahnStart(deps, indegree, queue);
    while |queue| > 0
      invariant KahnInv(deps, indegree, queue, order)
      invariant |order| == |out|
      invariant forall i :: 0 <= i < |order| ==> order[i] in sensors && out[i] == sensors[order[i]]
      decreases deps.Keys - Elems(order)
    {
      var id;
      id, indegree, queue := KahnStep(deps, dependents, indegree, queue, order);
      out := out + [sensors[id]];
      ElemsAppend(order, id);
      order := order + [id];
    }
    KahnEnd(deps, indegree, queue, order);
    if |out| != |sensors| {
      r := Err(CycleDetected(|out|, |sensors|));
    } else if |out| == 0 || out[|out| - 1].id != rootID {
      r := Err(NotAtRoot);
    } else {
      r := Ok(out);
    }
    assert SortsTo(rootID, sensors, order, r) by { OutIsOrder(rootID, sensors, order, out, r); }
  }

  lemma ElemsAppend(order: seq<Id>, id: Id)
    ensures Elems(order + [id]) == Elems(order) + {id}
    ensures id in Elems(order) <==> id in order
  {}

  lemma KahnEnd(deps: Graph, indegree: map<Id, nat>, queue: seq<Id>, order: seq<Id>)
    requires KahnInv(deps, indegree, queue, order) && |queue| == 0
    ensures IsKahnOrder(deps, order)
  {
    assert Elems(queue) == {};
  }

  lemma OutIsOrder(rootID: Id, sensors: map<Id, Sensor>, order: seq<Id>, out: seq<Sensor>, r: Result<seq<Sensor>>)
    requires forall k :: k in sensors ==> sensors[k].id == k
    requires |order| == |out| && forall i :: 0 <= i < |order| ==> order[i] in sensors && out[i] == sensors[order[i]]
    requires r == if |out| != |sensors| then Err(CycleDetected(|out|, |sensors|))
                  else if |out| == 0 || out[|out| - 1].id != rootID then Err(NotAtRoot)
                  else Ok(out)
    ensures SortsTo(rootID, sensors, order, r)
  {}

  lemma SmallestFirstAppend(g: Graph, order: seq<Id>, id: Id)
    requires SmallestFirst(g, order) && IsLeast(id, Ready(g, Elems(order)))
    ensures SmallestFirst(g, order + [id])
  {
    var longer := order + [id];
    forall i | 0 <= i < |longer| ensures IsLeast(longer[i], Ready(g, Elems(longer[..i]))) {
      if i < |order| {
        assert longer[..i] == order[..i];
      } else {
        assert longer[..i] == order;
      }
    }
  }

  // ---- Resolve -------------------------------------------------------------------------------

  function Ids(sensors: seq<Sensor>): (ids: seq<Id>)
    ensures |ids| == |sensors| && forall i :: 0 <= i < |ids| ==> ids[i] == sensors[i].id
  {
    seq(|sensors|, i requires 0 <= i < |sensors| => sensors[i].id)
  }

  /**
   * The resolved order of `root`: each reachable sensor exactly once as its file describes it, every dependency
   * before its dependents, the root last, and ties broken smallest id first.
   */
  ghost predicate IsResolution(files: Files, root: Id, order: seq<Sensor>) {
    var g := DepGraph(files);
    var ids := Ids(order);
    && |order| > 0 && ids[|ids| - 1] == root && NoDup(ids)
    && (forall x :: x in ids <==> Reaches(g, root, x))
    && (forall s :: s in order ==> s.id in files && s == Sensor(s.id, files[s.id]))
    && (forall i, d :: 0 <= i < |order| && d in order[i].file.deps ==> d in ids[..i])
    && SmallestFirst(Restrict(g, Elems(ids)), ids)
  }

  ghost function Restrict(g: Graph, s: set<Id>): Graph {
    map k | k in g && k in s :: g[k]
  }

  ghost function ReachableFiles(files: Files, root: Id): set<Id> {
    set x | x in files && Reaches(DepGraph(files), root, x)
  }

  /** The reachable sensors from which no cycle can be reached. */
  ghost function Sortable(files: Files, root: Id): set<Id> {
    set x | x in ReachableFiles(files, root) && !ReachesCycle(DepGraph(files), x)
  }

  /** Walks that start inside a closed part of the graph are walks of that part. */
  lemma RestrictReaches(g: Graph, s: set<Id>, a: Id, b: Id)
    requires Closed(g, s) && a in s
    ensures Reaches(g, a, b) <==> Reaches(Restrict(g, s), a, b)
  {
    var sub := Restrict(g, s);
    if Reaches(g, a, b) {
      var p :| IsWalk(g, p) && p[0] == a && p[|p| - 1] == b;
      forall i | 0 <= i < |p| - 1 ensures Edge(sub, p[i], p[i + 1]) {
        WalkStaysIn(g, s, p, i);
        assert Edge(g, p[i], p[i + 1]);
      }
      assert IsWalk(sub, p);
    }
    if Reaches(sub, a, b) {
      var p :| IsWalk(sub, p) && p[0] == a && p[|p| - 1] == b;
      forall i | 0 <= i < |p| - 1 ensures Edge(g, p[i], p[i + 1]) {
        assert Edge(sub, p[i], p[i + 1]);
      }
      assert IsWalk(g, p);
    }
  }

  /** What a successful load has built: the reachable part of the graph, cycles included. */
  lemma LoadedIsReachable(files: Files, root: Id, sensors: map<Id, Sensor>, deps: Graph)
    requires Faithful(files, sensors, deps) && root in sensors
    requires GrewFrom(DepGraph(files), root, {}, sensors.Keys)
    requires Settled(DepGraph(files), sensors.Keys - {}, sensors.Keys)
    ensures deps == Restrict(DepGraph(files), deps.Keys) && Closed(deps, deps.Keys)
    ensures deps.Keys == ReachableFiles(files, root)
    ensures forall x :: Reaches(DepGraph(files), root, x) <==> x in deps
    ensures forall x :: x in deps ==> Reaches(deps, root, x)
  {
    var g := DepGraph(files);
    assert sensors.Keys - {} == sensors.Keys;
    assert forall a, b :: a in deps && Edge(g, a, b) ==> b in deps;
    assert forall a, b :: Edge(deps, a, b) ==> Edge(g, a, b);
    assert deps == Restrict(g, deps.Keys);
    hide Edge, Restrict, DepGraph;
    forall x | Reaches(g, root, x) ensures x in deps {
      ClosedHoldsReachable(g, deps.Keys, root, x);
    }
    forall x | x in deps ensures Reaches(g, root, x) && Reaches(deps, root, x) {
      assert x in sensors.Keys - {};
      RestrictReaches(g, deps.Keys, root, x);
    }
  }

  /** Cycles of the loaded part are the cycles of the whole graph that pass through it. */
  lemma LoadedCycles(g: Graph, s: set<Id>, x: Id)
    requires Closed(g, s) && x in s
    ensures OnCycle(g, x) <==> OnCycle(Restrict(g, s), x)
  {
    forall d | Edge(g, x, d) ensures Edge(Restrict(g, s), x, d) &&
        (Reaches(g, d, x) <==> Reaches(Restrict(g, s), d, x)) {
      RestrictReaches(g, s, d, x);
    }
    assert forall d :: Edge(Restrict(g, s), x, d) ==> Edge(g, x, d);
  }

  /** What is listed of the loaded graph is its sortable part. */
  lemma ListsSortable(files: Files, root: Id, deps: Graph, order: seq<Id>)
    requires deps == Restrict(DepGraph(files), deps.Keys) && Closed(deps, deps.Keys)
    requires deps.Keys == ReachableFiles(files, root) && Closed(DepGraph(files), deps.Keys)
    requires IsKahnOrder(deps, order)
    ensures |order| == |Sortable(files, root)|
  {
    var g := DepGraph(files);
    KahnListsAcyclicPart(deps, order);
    hide OnCycle, Reaches, IsKahnOrder, SmallestFirst, Edge, ReachableFiles, Restrict, NoDup, Closed;
    forall x | x in deps ensures ReachesCycle(g, x) <==> ReachesCycle(deps, x) {
      LoadedReachesCycle(g, deps.Keys, x);
    }
    assert Elems(order) == Sortable(files, root);
    NoDupLength(order, Elems(order));
  }

  lemma LoadedReachesCycle(g: Graph, s: set<Id>, x: Id)
    requires Closed(g, s) && x in s
    ensures ReachesCycle(g, x) <==> ReachesCycle(Restrict(g, s), x)
  {
    hide Reaches, OnCycle, Restrict, Closed;
    forall y ensures Reaches(g, x, y) <==> Reaches(Restrict(g, s), x, y) {
      RestrictReaches(g, s, x, y);
    }
    forall y | Reaches(g, x, y) ensures OnCycle(g, y) <==> OnCycle(Restrict(g, s), y) {
      ClosedHoldsReachable(g, s, x, y);
      LoadedCycles(g, s, y);
    }
  }

  /** The order lists the whole loaded graph exactly when the root can be resolved. */
  lemma CompleteIffResolvable(files: Files, root: Id, deps: Graph, order: seq<Id>)
    requires deps == Restrict(DepGraph(files), deps.Keys) && Closed(deps, deps.Keys)
    requires deps.Keys == ReachableFiles(files, root)
    requires forall x :: Reaches(DepGraph(files), root, x) <==> x in deps
    requires IsKahnOrder(deps, order)
    ensures |order| == |deps| <==> Resolvable(files, root)
    ensures |order| == |deps| <==> Elems(order) == deps.Keys
    ensures |order| <= |deps| == |ReachableFiles(files, root)|
  {
    var g := DepGraph(files);
    assert forall a, b :: a in deps && Edge(g, a, b) ==> Edge(deps, a, b);
    KahnCompleteIffAcyclic(deps, order);
    SmallestFirstIsTopological(deps, order);
    NoDupLength(order, deps.Keys);
    assert |deps| == |deps.Keys|;
    assert forall x :: x in deps ==> x in files;
    hide OnCycle, Reaches, IsKahnOrder, SmallestFirst, Edge;
    forall x | x in deps ensures OnCycle(g, x) <==> OnCycle(deps, x) {
      LoadedCycles(g, deps.Keys, x);
    }
  }

  lemma SortedIsResolution(files: Files, root: Id, sensors: map<Id, Sensor>, deps: Graph, order: seq<Id>,
                           out: seq<Sensor>)
    requires Faithful(files, sensors, deps) && deps == Restrict(DepGraph(files), deps.Keys)
    requires forall x :: Reaches(DepGraph(files), root, x) <==> x in deps
    requires IsKahnOrder(deps, order) && Elems(order) == deps.Keys
    requires |order| > 0 && SortsTo(root, sensors, order, Ok(out))
    ensures IsResolution(files, root, out)
  {
    SmallestFirstIsTopological(deps, order);
    assert SmallestFirst(deps, order);
    ElemsOf(order);
    hide *;
    DepsComeEarlier(files, root, sensors, deps, order, out);
    ResolutionParts(files, root, out, order, deps);
  }

  lemma ResolutionParts(files: Files, root: Id, out: seq<Sensor>, order: seq<Id>, deps: Graph)
    requires Ids(out) == order && |order| > 0 && order[|order| - 1] == root && NoDup(order)
    requires forall x :: x in order <==> Reaches(DepGraph(files), root, x)
    requires forall s :: s in out ==> s.id in files && s == Sensor(s.id, files[s.id])
    requires forall i, d :: 0 <= i < |out| && d in out[i].file.deps ==> d in order[..i]
    requires deps == Restrict(DepGraph(files), Elems(order)) && SmallestFirst(deps, order)
    ensures IsResolution(files, root, out)
  {
    hide Reaches, Restrict, SmallestFirst, DepGraph, Elems, NoDup, Ids;
  }

  lemma DepsComeEarlier(files: Files, root: Id, sensors: map<Id, Sensor>, deps: Graph, order: seq<Id>, out: seq<Sensor>)
    requires Faithful(files, sensors, deps) && |order| > 0 && SortsTo(root, sensors, order, Ok(out))
    requires forall x :: x in order ==> x in deps
    requires forall i, d :: 0 <= i < |order| && d in deps[order[i]] ==> d in order[..i]
    ensures Ids(out) == order && order[|order| - 1] == root
    ensures forall s :: s in out ==> s.id in files && s == Sensor(s.id, files[s.id])
    ensures forall i, d :: 0 <= i < |out| && d in out[i].file.deps ==> d in order[..i]
  {
    forall i, d | 0 <= i < |out| && d in out[i].file.deps ensures d in order[..i] {
      assert out[i].file.deps == deps[order[i]];
    }
  }

  lemma EmptyIsFaithful(files: Files)
    ensures Faithful(files, map[], map[])
  {}

  lemma FaithfulKeys(files: Files, sensors: map<Id, Sensor>, deps: Graph)
    requires Faithful(files, sensors, deps)
    ensures sensors.Keys == deps.Keys && forall k :: k in sensors ==> sensors[k].id == k
  {}

  lemma LoadFailed(files: Files, root: Id, e: Error)
    requires match e
             case Unreadable(x) => Reaches(DepGraph(files), root, x) && x !in files
             case SelfLoop(x) => Reaches(DepGraph(files), root, x) && Edge(DepGraph(files), x, x)
             case _ => false
    ensures !Resolvable(files, root)
  {
    if e.SelfLoop? {
      ReachesSelf(DepGraph(files), e.id);
      assert OnCycle(DepGraph(files), e.id);
    }
  }

  lemma LoadedIsClosed(g: Graph, deps: Graph)
    requires deps == Restrict(g, deps.Keys) && Closed(deps, deps.Keys)
    ensures Closed(g, deps.Keys)
  {
    assert forall a, b :: a in deps && Edge(g, a, b) ==> Edge(deps, a, b);
  }

  lemma SortOutcome(files: Files, root: Id, sensors: map<Id, Sensor>, deps: Graph, order: seq<Id>,
                    r: Result<seq<Sensor>>)
    requires Faithful(files, sensors, deps) && root in sensors
    requires GrewFrom(DepGraph(files), root, {}, sensors.Keys)
    requires Settled(DepGraph(files), sensors.Keys - {}, sensors.Keys)
    requires IsKahnOrder(deps, order) && SortsTo(root, sensors, order, r)
    ensures r.Ok? <==> Resolvable(files, root)
    ensures r.Ok? ==> IsResolution(files, root, r.value)
    ensures r.Err? ==>
              && r.error.CycleDetected? && r.error.resolved == |Sortable(files, root)|
              && r.error.resolved < r.error.total == |ReachableFiles(files, root)|
              && (forall x :: Reaches(DepGraph(files), root, x) ==> x in files)
              && exists x :: Reaches(DepGraph(files), root, x) && OnCycle(DepGraph(files), x)
  {
    LoadedIsReachable(files, root, sensors, deps);
    LoadedIsClosed(DepGraph(files), deps);
    ListsSortable(files, root, deps, order);
    CompleteIffResolvable(files, root, deps, order);
    assert |sensors| == |sensors.Keys| == |deps.Keys| == |deps|;
    assert root in deps && deps.Keys != {};
    assert |deps| > 0;
    if |order| == |deps| {
      RootComesLast(deps, order, root);
      SortedIsResolution(files, root, sensors, deps, order, r.value);
    }
  }

  /** Only a resolvable root has a resolved order. */
  lemma ResolutionMeansResolvable(files: Files, root: Id, order: seq<Sensor>)
    requires IsResolution(files, root, order)
    ensures Resolvable(files, root)
  {
    var g, ids := DepGraph(files), Ids(order);
    var s := Elems(ids);
    SmallestFirstIsTopological(Restrict(g, s), ids);
    forall x | Reaches(g, root, x) ensures x in files && !OnCycle(g, x) {
      var i :| 0 <= i < |ids| && ids[i] == x;
      assert order[i] in order;
      OrderIsClosed(files, root, order);
      TopologicalHasNoCycle(Restrict(g, s), ids, i);
      LoadedCycles(g, s, x);
    }
  }

  lemma OrderIsClosed(files: Files, root: Id, order: seq<Sensor>)
    requires IsResolution(files, root, order)
    ensures Closed(DepGraph(files), Elems(Ids(order)))
  {
    var g, ids := DepGraph(files), Ids(order);
    hide SmallestFirst, Restrict, Reaches, NoDup;
    forall a, b | a in Elems(ids) && Edge(g, a, b) ensures b in Elems(ids) {
      var i :| 0 <= i < |ids| && ids[i] == a;
      assert order[i] in order;
      assert b in order[i].file.deps;
      assert b in ids[..i];
    }
  }

  method Resolve(rootID: Id, files: Files) returns (r: Result<seq<Sensor>>)
    ensures r.Ok? <==> Resolvable(files, rootID)
    ensures r.Ok? ==> IsResolution(files, rootID, r.value)
    ensures r.Err? ==>
              match r.error
              case Unreadable(x) => Reaches(DepGraph(files), rootID, x) && x !in files
              case SelfLoop(x) => Reaches(DepGraph(files), rootID, x) && Edge(DepGraph(files), x, x)
              case CycleDetected(k, n) =>
                && (forall x :: Reaches(DepGraph(files), rootID, x) ==> x in files)
                && (exists x :: Reaches(DepGraph(files), rootID, x) && OnCycle(DepGraph(files), x))
                && n == |ReachableFiles(files, rootID)| && k == |Sortable(files, rootID)| < n
              case VisitingCycle(_) => false
              case NotAtRoot => false
  {
    hide *;
    var loader := new Loader();
    ghost var g := DepGraph(files);
    EmptyIsFaithful(files);
    assert loader.sensors.Keys == {} && loader.visiting <= loader.sensors.Keys;
    var err := loader.LoadRecursive(files, rootID, g);
    if err.Some? {
      LoadFailed(files, rootID, err.value);
      return Err(err.value);
    }
    FaithfulKeys(files, loader.sensors, loader.deps);
    r := TopoSort(rootID, loader.sensors, loader.deps);
    ghost var order :| IsKahnOrder(loader.deps, order) && SortsTo(rootID, loader.sensors, order, r);
    SortOutcome(files, rootID, loader.sensors, loader.deps, order, r);
  }

  /**
   * Of two sensors in the resolved order, the earlier one has the smaller id, unless the later one was still waiting
   * for a dependency when the earlier one was listed.
   */
  lemma EarlierIsSmaller(files: Files, root: Id, order: seq<Sensor>, i: nat, j: nat)
    requires IsResolution(files, root, order) && i < j < |order|
    ensures || (exists k :: SmallerFrom(order[i].id, order[j].id, k))
            || exists d :: d in files[order[j].id].deps && d !in Ids(order)[..i]
  {
    hide Reaches, OnCycle, NoDup;
    var ids := Ids(order);
    var g := Restrict(DepGraph(files), Elems(ids));
    assert order[j] in order && ids[j] in ids && ids[i] == order[i].id && ids[j] == order[j].id;
    assert SmallestFirst(g, ids) && g[ids[j]] == files[ids[j]].deps;
    assert ids[j] !in ids[..i] by { NeverRepeated(files, root, order, i, j); }
    hide IsResolution, Ids, Restrict, DepGraph;
    if forall d :: d in files[ids[j]].deps ==> d in ids[..i] {
      assert ids[j] in Ready(g, Elems(ids[..i]));
      LessIff(ids[i], ids[j]);
      LessTotal(ids[i], ids[j]);
    }
  }

  lemma NeverRepeated(files: Files, root: Id, order: seq<Sensor>, i: nat, j: nat)
    requires IsResolution(files, root, order) && i < j < |order|
    ensures Ids(order)[j] !in Ids(order)[..i] && Ids(order)[j] != Ids(order)[i]
  {
    hide Reaches, SmallestFirst, Restrict, DepGraph;
    assert NoDup(Ids(order));
  }

  /** Map iteration order cannot show: a root has at most one resolution. */
  lemma ResolutionUnique(files: Files, root: Id, a: seq<Sensor>, b: seq<Sensor>)
    requires IsResolution(files, root, a) && IsResolution(files, root, b)
    ensures a == b
  {
    var s := Elems(Ids(a));
    assert s == Elems(Ids(b)) by {
      assert forall x :: x in Ids(a) <==> x in Ids(b);
    }
    var g := Restrict(DepGraph(files), s);
    assert IsKahnOrder(g, Ids(a)) && IsKahnOrder(g, Ids(b));
    KahnOrderUnique(g, Ids(a), Ids(b));
    forall i | 0 <= i < |a| ensures a[i] == b[i] {
      assert a[i] in a && b[i] in b;
    }
  }
}
