/** Walks, reachability and cycles in the graph of sensor dependencies. */
module Graphs {
  import opened Order

  type Graph = map<Id, seq<Id>>

  predicate Edge(g: Graph, a: Id, b: Id) {
    a in g && b in g[a]
  }

  ghost predicate IsWalk(g: Graph, p: seq<Id>) {
    |p| > 0 && forall i :: 0 <= i < |p| - 1 ==> Edge(g, p[i], p[i + 1])
  }

  ghost predicate Reaches(g: Graph, a: Id, b: Id) {
    exists p :: IsWalk(g, p) && p[0] == a && p[|p| - 1] == b
  }

  /** `b` is a direct or transitive dependency of `a`. */
  ghost predicate DependsOn(g: Graph, a: Id, b: Id) {
    exists d :: Edge(g, a, d) && Reaches(g, d, b)
  }

  ghost predicate OnCycle(g: Graph, a: Id) {
    DependsOn(g, a, a)
  }

  ghost predicate ReachesCycle(g: Graph, a: Id) {
    exists b :: Reaches(g, a, b) && OnCycle(g, b)
  }

  /** No edge of `g` leaves `s`. */
  ghost predicate Closed(g: Graph, s: set<Id>) {
    forall a, b :: a in s && Edge(g, a, b) ==> b in s
  }

  ghost predicate NoDup(p: seq<Id>) {
    forall i, j :: 0 <= i < j < |p| ==> p[i] != p[j]
  }

  ghost function Elems(p: seq<Id>): set<Id> {
    set x | x in p
  }

  lemma ReachesSelf(g: Graph, a: Id)
    ensures Reaches(g, a, a)
  {
    assert IsWalk(g, [a]) && [a][0] == a && [a][|[a]| - 1] == a;
  }

  lemma ReachesTransitive(g: Graph, a: Id, b: Id, c: Id)
    requires Reaches(g, a, b) && Reaches(g, b, c)
    ensures Reaches(g, a, c)
  {
    var p :| IsWalk(g, p) && p[0] == a && p[|p| - 1] == b;
    var q :| IsWalk(g, q) && q[0] == b && q[|q| - 1] == c;
    var r := p + q[1..];
    assert forall i :: |p| - 1 <= i < |r| ==> r[i] == q[i - (|p| - 1)];
    assert IsWalk(g, r) && r[0] == a && r[|r| - 1] == c;
  }

  lemma ReachesByEdge(g: Graph, a: Id, b: Id)
    requires Edge(g, a, b)
    ensures Reaches(g, a, b)
  {
    assert IsWalk(g, [a, b]) && [a, b][0] == a && [a, b][|[a, b]| - 1] == b;
  }

  lemma WalkSuffix(g: Graph, p: seq<Id>, k: nat)
    requires IsWalk(g, p) && k < |p|
    ensures IsWalk(g, p[k..]) && p[k..][0] == p[k] && p[k..][|p[k..]| - 1] == p[|p| - 1]
  {
    var q := p[k..];
    forall i | 0 <= i < |q| - 1 ensures Edge(g, q[i], q[i + 1]) {
      assert q[i] == p[k + i] && q[i + 1] == p[k + i + 1];
    }
  }

  lemma ReachesFirstStep(g: Graph, a: Id, c: Id)
    requires Reaches(g, a, c)
    ensures a == c || DependsOn(g, a, c)
  {
    var p :| IsWalk(g, p) && p[0] == a && p[|p| - 1] == c;
    if |p| > 1 {
      WalkSuffix(g, p, 1);
      assert Edge(g, p[0], p[0 + 1]);
      assert Reaches(g, p[1], c);
    }
  }

  lemma DependsOnReaches(g: Graph, a: Id, b: Id)
    requires DependsOn(g, a, b)
    ensures Reaches(g, a, b)
  {
    var d :| Edge(g, a, d) && Reaches(g, d, b);
    ReachesByEdge(g, a, d);
    ReachesTransitive(g, a, d, b);
  }

  /** A set closed under edges holds everything its members reach. */
  lemma ClosedHoldsReachable(g: Graph, s: set<Id>, a: Id, b: Id)
    requires Closed(g, s) && a in s && Reaches(g, a, b)
    ensures b in s
  {
    var p :| IsWalk(g, p) && p[0] == a && p[|p| - 1] == b;
    WalkStaysIn(g, s, p, |p| - 1);
  }

  lemma {:induction false} WalkStaysIn(g: Graph, s: set<Id>, p: seq<Id>, n: nat)
    requires Closed(g, s) && IsWalk(g, p) && p[0] in s && n < |p|
    ensures p[n] in s
  {
    if n > 0 {
      WalkStaysIn(g, s, p, n - 1);
      assert Edge(g, p[n - 1], p[n - 1 + 1]);
    }
  }

  lemma {:induction false} NoDupLength(p: seq<Id>, s: set<Id>)
    requires NoDup(p) && forall x :: x in p ==> x in s
    ensures |p| <= |s|
    ensures Elems(p) == s ==> |p| == |s|
  {
    if |p| > 0 {
      var last := p[|p| - 1];
      NoDupLength(p[..|p| - 1], s - {last});
      assert Elems(p) == Elems(p[..|p| - 1]) + {last};
    }
  }

  ghost predicate HasEdgeInto(g: Graph, a: Id, s: set<Id>) {
    exists b :: b in s && Edge(g, a, b)
  }

  /** If every member of a set has an edge into the set, every member reaches a cycle. */
  lemma StuckReachesCycle(g: Graph, s: set<Id>, a: Id)
    requires a in s && forall x :: x in s ==> HasEdgeInto(g, x, s)
    ensures ReachesCycle(g, a)
  {
    var x := WalkUntilRepeat(g, s, [a]);
  }

  lemma WalkAppend(g: Graph, p: seq<Id>, b: Id)
    requires IsWalk(g, p) && Edge(g, p[|p| - 1], b)
    ensures IsWalk(g, p + [b])
    ensures NoDup(p) && b !in p ==> NoDup(p + [b])
  {
    forall i | 0 <= i < |p| ensures Edge(g, (p + [b])[i], (p + [b])[i + 1]) {
      if i < |p| - 1 { assert Edge(g, p[i], p[i + 1]); }
    }
  }

  lemma RepeatClosesCycle(g: Graph, p: seq<Id>, b: Id)
    requires IsWalk(g, p) && Edge(g, p[|p| - 1], b) && b in p
    ensures OnCycle(g, p[|p| - 1])
  {
    var i :| 0 <= i < |p| && p[i] == b;
    WalkSuffix(g, p, i);
    assert Reaches(g, b, p[|p| - 1]);
  }

  lemma {:induction false} WalkUntilRepeat(g: Graph, s: set<Id>, p: seq<Id>) returns (x: Id)
    requires forall a :: a in s ==> HasEdgeInto(g, a, s)
    requires IsWalk(g, p) && NoDup(p) && forall y :: y in p ==> y in s
    ensures p != [] && Reaches(g, p[0], x) && OnCycle(g, x)
    decreases |s| - |p|
  {
    WalkReaches(g, p);
    hide *;
    NoDupLength(p, s);
    var b := NextInto(g, s, p);
    if b in p {
      RepeatClosesCycle(g, p, b);
      return p[|p| - 1];
    }
    WalkAppend(g, p, b);
    NoDupLength(p + [b], s);
    x := WalkUntilRepeat(g, s, p + [b]);
  }

  lemma WalkReaches(g: Graph, p: seq<Id>)
    requires IsWalk(g, p)
    ensures Reaches(g, p[0], p[|p| - 1])
  {}

  lemma NextInto(g: Graph, s: set<Id>, p: seq<Id>) returns (b: Id)
    requires forall a :: a in s ==> HasEdgeInto(g, a, s)
    requires IsWalk(g, p) && forall y :: y in p ==> y in s
    ensures |p| > 0 && p[|p| - 1] in s && b in s && Edge(g, p[|p| - 1], b)
  {
    assert HasEdgeInto(g, p[|p| - 1], s);
    b :| b in s && Edge(g, p[|p| - 1], b);
  }
}
