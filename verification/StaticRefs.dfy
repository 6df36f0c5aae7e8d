/** The references to step outputs that the static rules find in a template, against those the renderer evaluates. */
module StaticRefs {
  import opened Options
  import opened Template

  datatype OutputsRef = OutputsRef(stepID: string, key: string)

  const STEPS: string := "steps."
  const DOT_OUTPUTS: string := ".outputs."

  /** Where an identifier that starts at `i` ends; `i` itself when none does. */
  function IdentEnd(s: string, i: nat): (k: nat)
    requires i <= |s|
    ensures i <= k <= |s| && (k > i ==> IsIdent(s[i..k]))
  {
    if i < |s| && IsLetter(s[i]) then Skip(s, i, IsIdentChar) else i
  }

  datatype Found = Found(ref: OutputsRef, end: nat)

  /** Blanks and the closing braces from `f` on; where they end. */
  function ReadClose(s: string, f: nat): (r: Option<nat>)
    requires f <= |s|
    ensures r.Some? ==> f < r.value <= |s|
  {
    var g := Skip(s, f, IsBlank);
    if HasAt(s, g, "}}") then Some(g + 2) else None
  }

  function ReadKey(s: string, id: string, k: nat): (r: Option<Found>)
    requires k <= |s|
    ensures r.Some? ==> k < r.value.end <= |s|
  {
    var f := IdentEnd(s, k);
    var end := ReadClose(s, f);
    if f == k || end == None then None else Some(Found(OutputsRef(id, s[k..f]), end.value))
  }

  function ReadRef(s: string, a: nat): (r: Option<Found>)
    requires a <= |s|
    ensures r.Some? ==> a < r.value.end <= |s|
  {
    if !HasAt(s, a, STEPS) then None
    else
      var e := IdentEnd(s, a + 6);
      if e == a + 6 || !HasAt(s, e, DOT_OUTPUTS) then None else ReadKey(s, s[a + 6..e], e + 9)
  }

  /** One match of the rules' pattern: the braces around blanks and `steps.<id>.outputs.<key>`. */
  function FindAt(s: string, i: nat): (r: Option<Found>)
    requires i <= |s|
    ensures r.Some? ==> i < r.value.end <= |s|
  {
    if HasAt(s, i, OPEN) then ReadRef(s, Skip(s, i + 3, IsBlank)) else None
  }

  /** All matches that do not overlap, from left to right. */
  function FindAll(s: string, i: nat): seq<OutputsRef>
    requires i <= |s|
    decreases |s| - i
  {
    if i == |s| then []
    else match FindAt(s, i)
      case None => FindAll(s, i + 1)
      case Some(f) => [f.ref] + FindAll(s, f.end)
  }

  /** The accessor text that `resolveAccessor` reads as output `key` of step `id`. */
  function OutputsAccessor(id: string, key: string): string {
    STEPS + id + DOT_OUTPUTS + key
  }

  /** The step output an accessor is resolved to, if it is of that kind. */
  function AsOutputsRef(e: string): Option<OutputsRef> {
    var (root, rest) := CutAtDot(e);
    if root != "steps" || rest == None then None
    else
      var (id, field) := CutAtDot(rest.value);
      if field == None || !HasAt(field.value, 0, OUTPUTS) then None
      else Some(OutputsRef(id, field.value[|OUTPUTS|..]))
  }

  /** No match begins inside another one, so the scan from left to right misses none. */
  lemma {:induction false} FindAllIsComplete(s: string, i: nat, ref: OutputsRef)
    requires i <= |s|
    ensures ref in FindAll(s, i) <==> exists p :: i <= p < |s| && FindAt(s, p).Some? && FindAt(s, p).value.ref == ref
    decreases |s| - i
  {
    hide FindAt;
    if i < |s| {
      var f := FindAt(s, i);
      if f == None {
        FindAllIsComplete(s, i + 1, ref);
      } else {
        FindAllIsComplete(s, f.value.end, ref);
        NoMatchInside(s, i);
        if ref in FindAll(s, i) && ref != f.value.ref {
          assert ref in FindAll(s, f.value.end);
        }
      }
    }
  }

  ghost predicate NoDollar(s: string, lo: nat, hi: nat) {
    lo <= hi <= |s| && forall p :: lo <= p < hi ==> s[p] != '$'
  }

  lemma JoinNoDollar(s: string, lo: nat, mid: nat, hi: nat)
    requires NoDollar(s, lo, mid) && NoDollar(s, mid, hi)
    ensures NoDollar(s, lo, hi)
  {}

  lemma RunsHaveNoDollar(s: string, i: nat)
    requires i <= |s|
    ensures NoDollar(s, i, Skip(s, i, IsBlank)) && NoDollar(s, i, IdentEnd(s, i))
  {}

  lemma CloseHasNoDollar(s: string, f: nat)
    requires f <= |s| && ReadClose(s, f).Some?
    ensures NoDollar(s, f, ReadClose(s, f).value)
  {
    var g := Skip(s, f, IsBlank);
    RunsHaveNoDollar(s, f);
    LiteralAt(s, g, "}}");
  }

  lemma KeyHasNoDollar(s: string, id: string, k: nat)
    requires k <= |s| && ReadKey(s, id, k).Some?
    ensures NoDollar(s, k, ReadKey(s, id, k).value.end)
  {
    hide NoDollar, ReadClose, IdentEnd;
    var f := IdentEnd(s, k);
    RunsHaveNoDollar(s, k);
    CloseHasNoDollar(s, f);
    JoinNoDollar(s, k, f, ReadClose(s, f).value);
  }

  lemma RefHasNoDollar(s: string, a: nat)
    requires a <= |s| && ReadRef(s, a).Some?
    ensures NoDollar(s, a, ReadRef(s, a).value.end)
  {
    hide ReadKey, IdentEnd, HasAt;
    var e := IdentEnd(s, a + 6);
    RunsHaveNoDollar(s, a + 6);
    LiteralAt(s, a, STEPS);
    LiteralAt(s, e, DOT_OUTPUTS);
    KeyHasNoDollar(s, s[a + 6..e], e + 9);
    JoinNoDollar(s, a, a + 6, e);
    JoinNoDollar(s, a, e, e + 9);
  }

  lemma NoMatchInside(s: string, i: nat)
    requires i < |s| && FindAt(s, i).Some?
    ensures forall p :: i < p < FindAt(s, i).value.end ==> FindAt(s, p) == None
  {
    var a, end := Skip(s, i + 3, IsBlank), FindAt(s, i).value.end;
    assert NoDollar(s, i + 1, end) by {
      hide ReadRef, HasAt;
      LiteralAt(s, i, OPEN);
      RunsHaveNoDollar(s, i + 3);
      RefHasNoDollar(s, a);
      JoinNoDollar(s, i + 1, i + 3, a);
      JoinNoDollar(s, i + 1, a, end);
    }
    hide FindAt;
    forall p | i < p < end ensures FindAt(s, p) == None {
      NoMatchWithoutDollar(s, p);
    }
  }

  lemma NoMatchWithoutDollar(s: string, p: nat)
    requires p < |s| && s[p] != '$'
    ensures FindAt(s, p) == None && MatchEnd(s, p) == None
  {
    LiteralAt(s, p, OPEN);
    hide HasAt;
  }

  /** Trimming the text between `lo` and `hi` removes nothing but regular-expression blanks. */
  predicate OnlyBlanksAround(s: string, lo: nat, hi: nat)
    requires lo <= hi <= |s|
  {
    All(s, lo, TrimStart(s, lo, hi), IsBlank) && All(s, TrimEnd(s, lo, hi), hi, IsBlank)
  }

  // ---- What the static rules see is what the renderer evaluates ----------------------------------

  /** A run of `p` from `i` either goes on to `k`, or stops before it at a character that is not in `p`. */
  lemma SkipUpTo(s: string, i: nat, p: char -> bool, k: nat)
    requires i <= k < |s| && !p(s[k])
    ensures (forall x :: i <= x < k ==> p(s[x])) ==> Skip(s, i, p) == k
    ensures !(forall x :: i <= x < k ==> p(s[x])) ==> i <= Skip(s, i, p) < k && !p(s[Skip(s, i, p)])
  {
    var m := Skip(s, i, p);
    if forall x :: i <= x < k ==> p(s[x]) {
      SkipIs(s, i, p, k);
    }
  }

  /** The output reference `r` is spelled in `s` from `a` to `b`. */
  ghost predicate SpelledAt(s: string, a: nat, b: nat, r: OutputsRef) {
    && b == a + 6 + |r.stepID| + 9 + |r.key| <= |s|
    && HasAt(s, a, STEPS) && s[a + 6..a + 6 + |r.stepID|] == r.stepID
    && HasAt(s, a + 6 + |r.stepID|, DOT_OUTPUTS) && s[a + 6 + |r.stepID| + 9..b] == r.key
  }

  lemma CloseSeen(s: string, b: nat, j: nat)
    requires b <= j && HasAt(s, j, "}}") && All(s, b, j, IsSpace)
    ensures ReadClose(s, b) == if All(s, b, j, IsBlank) then Some(j + 2) else None
  {
    LiteralAt(s, j, "}}");
    SkipUpTo(s, b, IsBlank, j);
    var g := Skip(s, b, IsBlank);
    LiteralAt(s, g, "}}");
  }

  lemma KeySeen(s: string, id: string, k: nat, b: nat, j: nat)
    requires k <= b <= j && HasAt(s, j, "}}") && All(s, b, j, IsSpace)
    requires All(s, k, b, IsDottedChar)
    ensures ReadKey(s, id, k) ==
            if IsIdent(s[k..b]) && All(s, b, j, IsBlank) then Some(Found(OutputsRef(id, s[k..b]), j + 2)) else None
  {
    LiteralAt(s, j, "}}");
    var key := s[k..b];
    assert forall x :: k <= x < b ==> s[x] == key[x - k];
    assert !IsIdentChar(s[b]);
    SkipUpTo(s, k, IsIdentChar, b);
    var f := IdentEnd(s, k);
    if IsIdent(key) {
      CloseSeen(s, b, j);
    } else if f > k {
      SkipIs(s, f, IsBlank, f);
      LiteralAt(s, f, "}}");
    }
  }

  lemma IdSeen(s: string, a: nat, b: nat, r: OutputsRef)
    requires SpelledAt(s, a, b, r) && IsIdent(r.stepID)
    ensures IdentEnd(s, a + 6) == a + 6 + |r.stepID|
  {
    var e := a + 6 + |r.stepID|;
    LiteralAt(s, e, DOT_OUTPUTS);
    assert s[e] == '.';
    var id := s[a + 6..e];
    assert forall x :: a + 6 <= x < e ==> s[x] == id[x - (a + 6)];
    hide SpelledAt, HasAt;
    SkipIs(s, a + 6, IsIdentChar, e);
  }

  lemma KeyChars(s: string, a: nat, b: nat, r: OutputsRef)
    requires SpelledAt(s, a, b, r) && All(r.key, 0, |r.key|, IsDottedChar)
    ensures All(s, a + 6 + |r.stepID| + 9, b, IsDottedChar)
  {
    var k := a + 6 + |r.stepID| + 9;
    var key := s[k..b];
    forall x | k <= x < b ensures IsDottedChar(s[x]) {
      assert s[x] == key[x - k];
    }
  }

  lemma RefSeen(s: string, a: nat, b: nat, j: nat, r: OutputsRef)
    requires SpelledAt(s, a, b, r) && IsIdent(r.stepID) && All(r.key, 0, |r.key|, IsDottedChar)
    requires b <= j && HasAt(s, j, "}}") && All(s, b, j, IsSpace)
    ensures ReadRef(s, a) == if IsIdent(r.key) && All(s, b, j, IsBlank) then Some(Found(r, j + 2)) else None
  {
    hide *;
    IdSeen(s, a, b, r);
    KeyChars(s, a, b, r);
    ReadSpelled(s, a, b, r);
    KeySeen(s, r.stepID, a + 6 + |r.stepID| + 9, b, j);
  }

  lemma ReadSpelled(s: string, a: nat, b: nat, r: OutputsRef)
    requires SpelledAt(s, a, b, r) && IsIdent(r.stepID) && IdentEnd(s, a + 6) == a + 6 + |r.stepID|
    ensures b == a + 6 + |r.stepID| + 9 + |r.key| <= |s| && s[a + 6 + |r.stepID| + 9..b] == r.key
    ensures ReadRef(s, a) == ReadKey(s, r.stepID, a + 6 + |r.stepID| + 9)
  {
    hide ReadKey, HasAt, IdentEnd;
  }

  /** How an accessor that names a step output is written. */
  lemma SpellingOf(e: string, r: OutputsRef)
    requires IsAccessor(e) && AsOutputsRef(e) == Some(r)
    ensures SpelledAt(e, 0, |e|, r) && IsIdent(r.stepID) && All(r.key, 0, |r.key|, IsDottedChar)
  {
    StepsRoot(e);
    var rest := e[6..];
    assert rest[0] == e[6];
    assert forall x :: 0 <= x < |rest| ==> rest[x] == e[x + 6];
    var d := Skip(rest, 0, NotDot);
    var field := rest[d + 1..];
    SpellingOfField(rest, d, field, r);
    PutTogether(e, rest, r);
  }

  lemma SpellingOfField(rest: string, d: nat, field: string, r: OutputsRef)
    requires |rest| > 0 && IsLetter(rest[0]) && All(rest, 0, |rest|, IsDottedChar)
    requires d == Skip(rest, 0, NotDot) < |rest| && field == rest[d + 1..] && HasAt(field, 0, OUTPUTS)
    requires r == OutputsRef(rest[..d], field[|OUTPUTS|..])
    ensures rest == r.stepID + DOT_OUTPUTS + r.key && IsIdent(r.stepID) && All(r.key, 0, |r.key|, IsDottedChar)
  {
    FieldJoins(rest, d, field);
    AllSlice(rest, d + 9, |rest|, IsDottedChar);
    AllSlice(rest, 0, d, IsDottedChar);
    LetterIsNoDot(rest[0]);
    hide IsDottedChar, IsLetter, HasAt;
    DottedIdent(r.stepID);
  }

  lemma FieldJoins(rest: string, d: nat, field: string)
    requires d < |rest| && rest[d] == '.' && field == rest[d + 1..] && HasAt(field, 0, OUTPUTS)
    ensures d + 9 <= |rest| && rest == rest[..d] + DOT_OUTPUTS + field[8..] && field[8..] == rest[d + 9..]
  {
    assert field == OUTPUTS + field[8..];
    assert rest == rest[..d] + ['.'] + field;
    assert ['.'] + OUTPUTS == DOT_OUTPUTS;
  }

  lemma AllSlice(s: string, lo: nat, hi: nat, p: char -> bool)
    requires All(s, 0, |s|, p) && lo <= hi <= |s|
    ensures All(s[lo..hi], 0, hi - lo, p)
  {}

  lemma LetterIsNoDot(c: char)
    requires IsLetter(c)
    ensures NotDot(c)
  {}

  lemma PutTogether(e: string, rest: string, r: OutputsRef)
    requires HasAt(e, 0, STEPS) && rest == e[6..] && rest == r.stepID + DOT_OUTPUTS + r.key
    ensures SpelledAt(e, 0, |e|, r)
  {
    var d := |r.stepID|;
    assert e[6..6 + d] == rest[..d];
    assert e[6 + d..6 + d + 9] == rest[d..d + 9];
    assert e[6 + d + 9..] == rest[d + 9..];
  }

  lemma StepsRoot(e: string)
    requires IsAccessor(e) && Skip(e, 0, NotDot) < |e| && e[..Skip(e, 0, NotDot)] == "steps"
    ensures Skip(e, 0, NotDot) == 5 && |e| > 6 && IsLetter(e[6]) && All(e, 6, |e|, IsDottedChar)
    ensures HasAt(e, 0, STEPS)
  {
    var root := e[..5];
    assert root == "steps";
    assert e[0] == root[0] && e[1] == root[1] && e[2] == root[2] && e[3] == root[3] && e[4] == root[4];
    SkipIs(e, 0, IsIdentChar, 5);
    LiteralAt(e, 0, STEPS);
  }

  lemma DottedIdent(id: string)
    requires |id| > 0 && IsLetter(id[0]) && All(id, 0, |id|, IsDottedChar) && forall x :: 0 <= x < |id| ==>
             NotDot(id[x])
    ensures IsIdent(id)
  {}

  lemma SpelledShift(s: string, lo: nat, hi: nat, r: OutputsRef)
    requires lo <= hi <= |s| && SpelledAt(s[lo..hi], 0, hi - lo, r)
    ensures SpelledAt(s, lo, hi, r)
  {
    var t, d := s[lo..hi], |r.stepID|;
    SliceOfSlice(s, lo, hi, 0, 6);
    SliceOfSlice(s, lo, hi, 6, 6 + d);
    SliceOfSlice(s, lo, hi, 6 + d, 6 + d + 9);
    SliceOfSlice(s, lo, hi, 6 + d + 9, |t|);
  }

  lemma SliceOfSlice(s: string, lo: nat, hi: nat, x: nat, y: nat)
    requires x <= y <= hi - lo && lo <= hi <= |s|
    ensures s[lo..hi][x..y] == s[lo + x..lo + y]
  {
    var u, v := s[lo..hi][x..y], s[lo + x..lo + y];
    assert |u| == |v| && forall k :: 0 <= k < |u| ==> u[k] == v[k];
  }

  lemma ReadsFromFirstNonSpace(s: string, lo: nat, a: nat)
    requires lo <= a && HasAt(s, a, STEPS) && All(s, lo, a, IsSpace)
    ensures if All(s, lo, a, IsBlank) then Skip(s, lo, IsBlank) == a else ReadRef(s, Skip(s, lo, IsBlank)) == None
  {
    LiteralAt(s, a, STEPS);
    SpaceIsNoLetter('s');
    hide HasAt, IsSpace, IsBlank;
    SkipUpTo(s, lo, IsBlank, a);
    if !All(s, lo, a, IsBlank) {
      NoRefWithoutS(s, Skip(s, lo, IsBlank));
    }
  }

  lemma SpaceIsNoLetter(c: char)
    requires IsLetter(c)
    ensures !IsSpace(c) && !IsBlank(c)
  {}

  lemma NoRefWithoutS(s: string, q: nat)
    requires q < |s| && IsSpace(s[q])
    ensures ReadRef(s, q) == None
  {
    LiteralAt(s, q, STEPS);
    hide HasAt;
  }

  /**
   * The static pattern matches a placeholder that the renderer resolves to a step output exactly when the key is
   * one identifier and no exotic white space surrounds the accessor; it then finds the same step and key.
   */
  lemma SeenIff(s: string, i: nat, j: nat, r: OutputsRef)
    requires i <= |s| && MatchEnd(s, i) == Some(j)
    requires IsAccessor(Expr(s, i, j)) && AsOutputsRef(Expr(s, i, j)) == Some(r)
    ensures FindAt(s, i) == if IsIdent(r.key) && OnlyBlanksAround(s, i + 3, j) then Some(Found(r, j + 2)) else None
  {
    hide *;
    var a, b := TrimStart(s, i + 3, j), TrimEnd(s, i + 3, j);
    TrimmedPart(s, i, j, r);
    SpellingOf(Expr(s, i, j), r);
    SpelledShift(s, a, b, r);
    SpelledStart(s, a, b, r);
    MatchCloses(s, i);
    ReadsFromFirstNonSpace(s, i + 3, a);
    RefSeen(s, a, b, j, r);
    FindUnfold(s, i);
  }

  lemma TrimmedPart(s: string, i: nat, j: nat, r: OutputsRef)
    requires i + 3 <= j <= |s|
    ensures var a, b := TrimStart(s, i + 3, j), TrimEnd(s, i + 3, j);
            && Expr(s, i, j) == s[a..b] && |s[a..b]| == b - a && All(s, i + 3, a, IsSpace) && All(s, b, j, IsSpace)
            && (OnlyBlanksAround(s, i + 3, j) <==> All(s, i + 3, a, IsBlank) && All(s, b, j, IsBlank))
  {
    hide IsSpace, IsBlank;
  }

  lemma SpelledStart(s: string, a: nat, b: nat, r: OutputsRef)
    requires SpelledAt(s, a, b, r)
    ensures HasAt(s, a, STEPS)
  {}

  lemma MatchCloses(s: string, i: nat)
    requires i <= |s| && MatchEnd(s, i).Some?
    ensures HasAt(s, MatchEnd(s, i).value, "}}") && HasAt(s, i, OPEN) && i + 3 <= |s|
  {}

  lemma FindUnfold(s: string, i: nat)
    requires i + 3 <= |s| && HasAt(s, i, OPEN)
    ensures FindAt(s, i) == ReadRef(s, Skip(s, i + 3, IsBlank))
  {}

  /** Every accessor that is rendered comes from a place where a placeholder matches. */
  lemma {:induction false} AccessorsAreMatches(s: string, i: nat, k: nat) returns (p: nat)
    requires i <= |s| && k < |Accessors(s, i)|
    ensures i <= p < |s| && MatchEnd(s, p).Some? && Expr(s, p, MatchEnd(s, p).value) == Accessors(s, i)[k]
    decreases |s| - i
  {
    hide MatchEnd, Expr;
    var j := MatchEnd(s, i);
    if j == None {
      p := AccessorsAreMatches(s, i + 1, k);
    } else if k == 0 {
      p := i;
    } else {
      p := AccessorsAreMatches(s, j.value + 2, k - 1);
    }
  }

  // ---- The pattern ---------------------------------------------------------------------------------

  /** The rules' pattern: braces at `i`, blanks, `steps.<id>.outputs.<key>` from `a` to `b`, blanks, braces to `end`. */
  ghost predicate Pattern(s: string, i: nat, a: nat, b: nat, end: nat, r: OutputsRef) {
    && HasAt(s, i, OPEN) && i + 3 <= a && SpelledAt(s, a, b, r) && IsIdent(r.stepID) && IsIdent(r.key)
    && b + 2 <= end <= |s| && HasAt(s, end - 2, "}}") && All(s, i + 3, a, IsBlank) && All(s, b, end - 2, IsBlank)
  }

  /** A match is exactly what the pattern says. */
  lemma FindAtIff(s: string, i: nat, r: OutputsRef, end: nat)
    requires i <= |s|
    ensures FindAt(s, i) == Some(Found(r, end)) <==> exists a, b :: Pattern(s, i, a, b, end, r)
  {
    hide *;
    if FindAt(s, i) == Some(Found(r, end)) {
      var a, b := PatternAt(s, i, r, end);
    }
    if a, b :| Pattern(s, i, a, b, end, r) {
      PatternFound(s, i, a, b, end, r);
    }
  }

  lemma PatternFound(s: string, i: nat, a: nat, b: nat, end: nat, r: OutputsRef)
    requires i <= |s| && Pattern(s, i, a, b, end, r)
    ensures FindAt(s, i) == Some(Found(r, end))
  {
    hide *;
    PatternParts(s, i, a, b, end, r);
    BlanksAreSpaces(s, b, end - 2);
    IdentsAreDotted(r.key);
    RefSeen(s, a, b, end - 2, r);
    SpelledStart(s, a, b, r);
    BlanksEnd(s, i + 3, a);
    FindUnfold(s, i);
  }

  lemma PatternParts(s: string, i: nat, a: nat, b: nat, end: nat, r: OutputsRef)
    requires Pattern(s, i, a, b, end, r)
    ensures i + 3 <= a <= b <= end - 2 && end <= |s| && HasAt(s, i, OPEN) && HasAt(s, end - 2, "}}")
    ensures SpelledAt(s, a, b, r) && IsIdent(r.stepID) && IsIdent(r.key)
    ensures All(s, i + 3, a, IsBlank) && All(s, b, end - 2, IsBlank)
  {}

  lemma BlanksEnd(s: string, lo: nat, a: nat)
    requires lo <= a <= |s| && All(s, lo, a, IsBlank) && HasAt(s, a, STEPS)
    ensures Skip(s, lo, IsBlank) == a
  {
    LiteralAt(s, a, STEPS);
    SkipUpTo(s, lo, IsBlank, a);
  }

  lemma BlanksAreSpaces(s: string, lo: nat, hi: nat)
    requires hi <= |s| && All(s, lo, hi, IsBlank)
    ensures All(s, lo, hi, IsSpace)
  {}

  lemma IdentsAreDotted(key: string)
    requires IsIdent(key)
    ensures All(key, 0, |key|, IsDottedChar)
  {}

  lemma PatternAt(s: string, i: nat, r: OutputsRef, end: nat) returns (a: nat, b: nat)
    requires i <= |s| && FindAt(s, i) == Some(Found(r, end))
    ensures Pattern(s, i, a, b, end, r)
  {
    hide *;
    a := OpenParts(s, i);
    b := RefParts(s, a, r, end);
    CloseParts(s, b, end);
    PatternFrom(s, i, a, b, end, r);
  }

  lemma PatternFrom(s: string, i: nat, a: nat, b: nat, end: nat, r: OutputsRef)
    requires HasAt(s, i, OPEN) && i + 3 <= a && SpelledAt(s, a, b, r) && IsIdent(r.stepID) && IsIdent(r.key)
    requires b + 2 <= end <= |s| && HasAt(s, end - 2, "}}") && All(s, i + 3, a, IsBlank) && All(s, b, end - 2, IsBlank)
    ensures Pattern(s, i, a, b, end, r)
  {}

  lemma OpenParts(s: string, i: nat) returns (a: nat)
    requires i <= |s| && FindAt(s, i).Some?
    ensures HasAt(s, i, OPEN) && i + 3 <= a <= |s| && All(s, i + 3, a, IsBlank) && FindAt(s, i) == ReadRef(s, a)
  {
    LiteralAt(s, i, OPEN);
    a := Skip(s, i + 3, IsBlank);
    hide ReadRef;
  }

  lemma RefParts(s: string, a: nat, r: OutputsRef, end: nat) returns (b: nat)
    requires a <= |s| && ReadRef(s, a) == Some(Found(r, end))
    ensures SpelledAt(s, a, b, r) && IsIdent(r.stepID) && IsIdent(r.key) && ReadClose(s, b) == Some(end)
  {
    hide Skip, IsIdent, IsLetter, ReadClose;
    var e := IdentEnd(s, a + 6);
    b := IdentEnd(s, e + 9);
    hide IdentEnd;
  }

  lemma CloseParts(s: string, b: nat, end: nat)
    requires b <= |s| && ReadClose(s, b) == Some(end)
    ensures b + 2 <= end <= |s| && HasAt(s, end - 2, "}}") && All(s, b, end - 2, IsBlank)
  {
    hide IsBlank;
  }
}
