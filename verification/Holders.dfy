/** Holder records of a blocking dependency, compacted in place over a shared backing array. */
module Holders {
  import opened Picks

  /** A `held_by` record: kind "sensor" carries the dependent's id and pid, kind "manual" neither. */
  datatype Holder = Holder(kind: string, id: string, pid: int, attachedAt: string)

  /** A slice header: the first `len` cells of a backing array. */
  datatype Slice<!T> = Slice(arr: array<T>, len: nat)

  ghost predicate Valid<T>(s: Slice<T>) {
    s.len <= s.arr.Length
  }

  ghost function View<T>(s: Slice<T>): seq<T>
    requires Valid(s)
    reads s.arr
  {
    s.arr[..s.len]
  }

  predicate HoldersMatch(a: Holder, b: Holder) {
    a.kind == b.kind && (a.kind == "sensor" ==> a.id == b.id && a.pid == b.pid)
  }

  predicate IsDead(alive: int -> bool, h: Holder) {
    h.kind == "sensor" && !alive(h.pid)
  }

  // ---- The list operations -------------------------------------------------------------------

  function Select(hs: seq<Holder>, p: Holder -> bool): seq<Holder> {
    if hs == [] then []
    else
      var n := |hs| - 1;
      Select(hs[..n], p) + if p(hs[n]) then [hs[n]] else []
  }

  lemma SelectNone(p: Holder -> bool)
    ensures Select([], p) == []
  {}

  lemma SelectNext(hs: seq<Holder>, i: nat, p: Holder -> bool)
    requires i < |hs|
    ensures Select(hs[..i + 1], p) == Select(hs[..i], p) + if p(hs[i]) then [hs[i]] else []
  {
    assert hs[..i + 1][..i] == hs[..i];
  }

  /** Selecting keeps exactly the records that satisfy `p`, in their order. */
  lemma {:induction false} SelectIsOrdered(hs: seq<Holder>, p: Holder -> bool) returns (idx: seq<nat>)
    ensures PicksOut(idx, hs, p) && |Select(hs, p)| == |idx|
    ensures forall k :: 0 <= k < |idx| ==> Select(hs, p)[k] == hs[idx[k]]
  {
    idx := [];
    if hs != [] {
      var before := SelectIsOrdered(hs[..|hs| - 1], p);
      PicksLast(before, hs, p);
      idx := PickLast(before, hs, p);
      hide PicksOut;
    }
  }

  lemma {:induction false} SelectKeepsCount(hs: seq<Holder>, p: Holder -> bool, h: Holder)
    ensures multiset(Select(hs, p))[h] == if p(h) then multiset(hs)[h] else 0
  {
    if hs != [] {
      var n := |hs| - 1;
      SelectKeepsCount(hs[..n], p, h);
      assert hs == hs[..n] + [hs[n]];
    }
  }

  /** What is kept and what is dropped together are the old records. */
  lemma SelectPartitions(hs: seq<Holder>, p: Holder -> bool, q: Holder -> bool)
    requires forall h :: p(h) <==> !q(h)
    ensures multiset(Select(hs, p)) + multiset(Select(hs, q)) == multiset(hs)
  {
    hide Select;
    forall h ensures multiset(Select(hs, p))[h] + multiset(Select(hs, q))[h] == multiset(hs)[h] {
      SelectKeepsCount(hs, p, h);
      SelectKeepsCount(hs, q, h);
    }
  }

  function Dead(alive: int -> bool): Holder -> bool {
    h => IsDead(alive, h)
  }

  function NotDead(alive: int -> bool): Holder -> bool {
    h => !IsDead(alive, h)
  }

  function Survivors(hs: seq<Holder>, alive: int -> bool): seq<Holder> {
    Select(hs, NotDead(alive))
  }

  function Reaped(hs: seq<Holder>, alive: int -> bool): seq<Holder> {
    Select(hs, Dead(alive))
  }

  /** Reaping loses nothing, never takes a manual record, and leaves no dead sensor record. */
  lemma ReapProperties(hs: seq<Holder>, alive: int -> bool)
    ensures multiset(Survivors(hs, alive)) + multiset(Reaped(hs, alive)) == multiset(hs)
    ensures forall h :: h in Reaped(hs, alive) ==> h.kind == "sensor" && !alive(h.pid)
    ensures forall h :: h in Survivors(hs, alive) && h.kind == "sensor" ==> alive(h.pid)
    ensures forall h: Holder :: h.kind != "sensor" ==> multiset(Survivors(hs, alive))[h] == multiset(hs)[h]
  {
    SelectPartitions(hs, NotDead(alive), Dead(alive));
    forall h: Holder
      ensures multiset(Survivors(hs, alive))[h] == if IsDead(alive, h) then 0 else multiset(hs)[h]
      ensures multiset(Reaped(hs, alive))[h] == if IsDead(alive, h) then multiset(hs)[h] else 0
    {
      SelectKeepsCount(hs, NotDead(alive), h);
      SelectKeepsCount(hs, Dead(alive), h);
    }
    assert forall h :: h in Reaped(hs, alive) ==> multiset(Reaped(hs, alive))[h] > 0;
    assert forall h :: h in Survivors(hs, alive) ==> multiset(Survivors(hs, alive))[h] > 0;
    hide Survivors, Reaped;
  }

  predicate SameIDDead(alive: int -> bool, holderID: string, h: Holder) {
    h.id == holderID && IsDead(alive, h)
  }

  function NotSameIDDead(alive: int -> bool, holderID: string): Holder -> bool {
    h => !SameIDDead(alive, holderID, h)
  }

  predicate SameIDLive(alive: int -> bool, holderID: string, h: Holder) {
    h.kind == "sensor" && h.id == holderID && alive(h.pid)
  }

  ghost predicate IsFirstMatch(hs: seq<Holder>, m: Holder, i: nat) {
    i < |hs| && HoldersMatch(hs[i], m) && forall j :: 0 <= j < i ==> !HoldersMatch(hs[j], m)
  }

  /** `hs'` is `hs` without its first record matching `m`, or `hs` itself when none does. */
  ghost predicate FirstMatchRemoved(hs: seq<Holder>, m: Holder, hs': seq<Holder>, found: bool) {
    if found then exists i: nat :: IsFirstMatch(hs, m, i) && hs' == hs[..i] + hs[i + 1..]
    else hs' == hs && forall j :: 0 <= j < |hs| ==> !HoldersMatch(hs[j], m)
  }

  // ---- The same in place ---------------------------------------------------------------------

  /** Append, reusing spare capacity and otherwise moving to a larger array. */
  method AddHolder(s: Slice<Holder>, h: Holder) returns (s': Slice<Holder>)
    requires Valid(s)
    modifies s.arr
    ensures Valid(s') && View(s') == old(View(s)) + [h]
    ensures s'.arr == s.arr || fresh(s'.arr)
    ensures forall i :: 0 <= i < s.arr.Length && i != s.len ==> s.arr[i] == old(s.arr[i])
  {
    if s.len < s.arr.Length {
      s.arr[s.len] := h;
      return Slice(s.arr, s.len + 1);
    }
    var bigger := new Holder[2 * s.len + 1](i requires 0 <= i reads s.arr =>
      if i < s.len && i < s.arr.Length then s.arr[i] else h);
    return Slice(bigger, s.len + 1);
  }

  /** Records of one process; for manual records, of one kind. */
  ghost predicate SameHold(a: Holder, b: Holder) {
    (a.kind, a.id, a.pid) == (b.kind, b.id, b.pid) || (a.kind == b.kind && a.kind != "sensor")
  }

  /**
   * Delete the first match by shifting the rest down. The old header still covers one cell more and there sees the
   * last record a second time.
   */
  method RemoveHolder(s: Slice<Holder>, m: Holder) returns (s': Slice<Holder>, found: bool)
    requires Valid(s)
    modifies s.arr
    ensures Valid(s') && s'.arr == s.arr
    ensures FirstMatchRemoved(old(View(s)), m, View(s'), found)
    ensures found ==> View(s) == View(s') + [old(View(s))[s.len - 1]]
    ensures forall i :: s.len <= i < s.arr.Length ==> s.arr[i] == old(s.arr[i])
  {
    ghost var hs := View(s);
    for i := 0 to s.len
      invariant s.arr[..] == old(s.arr[..])
      invariant forall j :: 0 <= j < i ==> !HoldersMatch(hs[j], m)
    {
      if HoldersMatch(s.arr[i], m) {
        assert IsFirstMatch(hs, m, i);
        for k := i to s.len - 1
          invariant forall j :: 0 <= j < s.arr.Length && !(i <= j < k) ==> s.arr[j] == old(s.arr[j])
          invariant forall j :: i <= j < k ==> s.arr[j] == hs[j + 1]
        {
          s.arr[k] := s.arr[k + 1];
        }
        s', found := Slice(s.arr, s.len - 1), true;
        assert View(s') == hs[..i] + hs[i + 1..];
        return;
      }
    }
    return s, false;
  }

  method ReapDead(s: Slice<Holder>, alive: int -> bool) returns (s': Slice<Holder>, reaped: seq<Holder>)
    requires Valid(s)
    modifies s.arr
    ensures Valid(s') && s'.arr == s.arr
    ensures View(s') == Survivors(old(View(s)), alive)
    ensures reaped == Reaped(old(View(s)), alive)
    ensures forall i :: s.len <= i < s.arr.Length ==> s.arr[i] == old(s.arr[i])
  {
    hide Select;
    SelectNone(Dead(alive));
    SelectNone(NotDead(alive));
    ghost var hs := View(s);
    assert hs[..0] == [];
    var keep := 0;
    reaped := [];
    for i := 0 to s.len
      invariant keep <= i
      invariant s.arr[..keep] == Survivors(hs[..i], alive) && reaped == Reaped(hs[..i], alive)
      invariant forall j :: i <= j < s.arr.Length ==> s.arr[j] == old(s.arr[j])
    {
      SelectNext(hs, i, Dead(alive));
      SelectNext(hs, i, NotDead(alive));
      var h := s.arr[i];
      if h.kind == "sensor" && !alive(h.pid) {
        reaped := reaped + [h];
        continue;
      }
      ghost var kept := s.arr[..keep];
      s.arr[keep] := h;
      assert s.arr[..keep + 1] == kept + [h];
      keep := keep + 1;
    }
    assert hs[..s.len] == hs;
    s' := Slice(s.arr, keep);
    assert View(s') == s.arr[..keep];
  }

  /** As `ReapDead`, but only for records of one holder id; used before re-attaching. */
  method ReapDeadSameIDHolders(s: Slice<Holder>, alive: int -> bool, holderID: string) returns (s': Slice<Holder>)
    requires Valid(s)
    modifies s.arr
    ensures Valid(s') && s'.arr == s.arr
    ensures View(s') == Select(old(View(s)), NotSameIDDead(alive, holderID))
  {
    hide Select;
    SelectNone(NotSameIDDead(alive, holderID));
    ghost var hs := View(s);
    assert hs[..0] == [];
    var keep := 0;
    for i := 0 to s.len
      invariant keep <= i
      invariant s.arr[..keep] == Select(hs[..i], NotSameIDDead(alive, holderID))
      invariant forall j :: i <= j < s.arr.Length ==> s.arr[j] == old(s.arr[j])
    {
      SelectNext(hs, i, NotSameIDDead(alive, holderID));
      var h := s.arr[i];
      if h.kind == "sensor" && h.id == holderID && !alive(h.pid) {
        continue;
      }
      ghost var kept := s.arr[..keep];
      s.arr[keep] := h;
      assert s.arr[..keep + 1] == kept + [h];
      keep := keep + 1;
    }
    assert hs[..s.len] == hs;
    s' := Slice(s.arr, keep);
  }

  method HasLiveSameIDHolder(s: Slice<Holder>, alive: int -> bool, holderID: string) returns (found: bool)
    requires Valid(s)
    ensures found <==> exists i :: 0 <= i < s.len && SameIDLive(alive, holderID, s.arr[i])
  {
    for i := 0 to s.len
      invariant forall j :: 0 <= j < i ==> !SameIDLive(alive, holderID, s.arr[j])
    {
      if SameIDLive(alive, holderID, s.arr[i]) {
        return true;
      }
    }
    return false;
  }
}
