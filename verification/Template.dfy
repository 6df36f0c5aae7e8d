/** `${{ accessor }}` placeholders: how they are rendered, and what the static rules see of them. */
module Template {
  import opened Options

  // ---- Scanning --------------------------------------------------------------------------------

  predicate IsLetter(c: char) { 'a' <= c <= 'z' || 'A' <= c <= 'Z' || c == '_' }
  predicate IsIdentChar(c: char) { IsLetter(c) || '0' <= c <= '9' || c == '-' }
  predicate IsDottedChar(c: char) { IsIdentChar(c) || c == '.' }
  predicate NotDot(c: char) { c != '.' }
  predicate NotBrace(c: char) { c != '}' }

  /** `\s` of a regular expression. */
  predicate IsBlank(c: char) { c == ' ' || c == '\t' || c == '\n' || c == '\r' || c == '\U{0C}' }

  /** What trimming removes: every Unicode white space. */
  predicate IsSpace(c: char) {
    || IsBlank(c) || c == '\U{0B}' || c == '\U{85}' || c == '\U{A0}' || c == '\U{1680}'
    || '\U{2000}' <= c <= '\U{200A}' || c == '\U{2028}' || c == '\U{2029}' || c == '\U{202F}' || c == '\U{205F}' ||
      c == '\U{3000}'
  }

  /** The character classes by code point: those of the patterns, and the white space that trimming removes. */
  lemma CharacterClasses(c: char)
    ensures IsLetter(c) <==> 65 <= c as int <= 90 || 97 <= c as int <= 122 || c as int == 95
    ensures IsIdentChar(c) <==> IsLetter(c) || 48 <= c as int <= 57 || c as int == 45
    ensures IsDottedChar(c) <==> IsIdentChar(c) || c as int == 46
    ensures IsBlank(c) <==> c as int in {9, 10, 12, 13, 32}
    ensures IsSpace(c) <==>
              || 9 <= c as int <= 13 || 0x2000 <= c as int <= 0x200A
              || c as int in {0x20, 0x85, 0xA0, 0x1680, 0x2028, 0x2029, 0x202F, 0x205F, 0x3000}
  {}

  predicate IsIdent(s: string) {
    |s| > 0 && IsLetter(s[0]) && forall i :: 0 <= i < |s| ==> IsIdentChar(s[i])
  }

  /** The first index from `i` on whose character is not in `p`. */
  function Skip(s: string, i: nat, p: char -> bool): (k: nat)
    requires i <= |s|
    ensures i <= k <= |s| && (k < |s| ==> !p(s[k]))
    ensures forall x :: i <= x < k ==> p(s[x])
    decreases |s| - i
  {
    if i < |s| && p(s[i]) then Skip(s, i + 1, p) else i
  }

  /** Where the run of `p` that ends at `hi` begins. */
  function Back(s: string, lo: nat, hi: nat, p: char -> bool): (k: nat)
    requires lo <= hi <= |s|
    ensures lo <= k <= hi && (k > lo ==> !p(s[k - 1]))
    ensures forall x :: k <= x < hi ==> p(s[x])
  {
    if hi > lo && p(s[hi - 1]) then Back(s, lo, hi - 1, p) else hi
  }

  lemma {:induction false} SkipIs(s: string, i: nat, p: char -> bool, k: nat)
    requires i <= k <= |s| && (k < |s| ==> !p(s[k]))
    requires forall x :: i <= x < k ==> p(s[x])
    ensures Skip(s, i, p) == k
    decreases |s| - i
  {
    if i < k { SkipIs(s, i + 1, p, k); }
  }

  /** Every character from `lo` to `hi` is in `p`. */
  predicate All(s: string, lo: nat, hi: nat, p: char -> bool)
    requires hi <= |s|
  {
    forall x :: lo <= x < hi ==> p(s[x])
  }

  predicate HasAt(s: string, i: nat, t: string) {
    i + |t| <= |s| && s[i..i + |t|] == t
  }

  lemma LiteralAt(s: string, i: nat, t: string)
    ensures HasAt(s, i, t) <==> i + |t| <= |s| && forall p :: i <= p < i + |t| ==> s[p] == t[p - i]
  {
    if HasAt(s, i, t) {
      forall p | i <= p < i + |t| ensures s[p] == t[p - i] {
        assert s[i..i + |t|][p - i] == s[p];
      }
    }
  }

  /** The part of `s` between `lo` and `hi` that trimming leaves: where it starts ... */
  function TrimStart(s: string, lo: nat, hi: nat): (k: nat)
    requires lo <= hi <= |s|
    ensures lo <= k <= hi && All(s, lo, k, IsSpace) && (k < hi ==> !IsSpace(s[k]))
    decreases hi - lo
  {
    if lo < hi && IsSpace(s[lo]) then TrimStart(s, lo + 1, hi) else lo
  }

  /** ... and where it ends. */
  function TrimEnd(s: string, lo: nat, hi: nat): (k: nat)
    requires lo <= hi <= |s|
    ensures TrimStart(s, lo, hi) <= k <= hi && All(s, k, hi, IsSpace) &&
            (k > TrimStart(s, lo, hi) ==> !IsSpace(s[k - 1]))
  {
    Back(s, TrimStart(s, lo, hi), hi, IsSpace)
  }

  // ---- Resolving one accessor -------------------------------------------------------------------

  datatype Response = Response(status: string, headers: map<string, string>)
  datatype ActionStep = ActionStep(verdict: string, severity: string, outputs: map<string, string>,
                                   response: Option<Response>)
  datatype Context = Context(fixtures: map<string, string>, env: map<string, string>, steps: map<string, ActionStep>)

  datatype RenderError =
    | InvalidAccessor(expr: string)
    | NeedsName(root: string)
    | NotFound(root: string, name: string)
    | StepNotRun(id: string)
    | NeedsField(id: string)
    | NoOutput(id: string, key: string)
    | NotHttp(id: string)
    | NoHeader(id: string, header: string)
    | BadField(id: string, field: string)
    | UnknownRoot(root: string)

  datatype Result<+T> = Ok(value: T) | Err(error: RenderError)

  /** An identifier, optionally followed by a dot, a letter and any identifier characters or dots. */
  predicate IsAccessor(e: string) {
    && |e| > 0 && IsLetter(e[0])
    && var d := Skip(e, 0, IsIdentChar);
       d == |e| || (e[d] == '.' && d + 1 < |e| && IsLetter(e[d + 1]) && forall x :: d < x < |e| ==> IsDottedChar(e[x]))
  }

  /** `rest` is what can follow the first segment of an accessor: a dot, a letter, and further segments. */
  ghost predicate IsRest(rest: string) {
    |rest| >= 2 && rest[0] == '.' && IsLetter(rest[1]) && forall i :: 1 <= i < |rest| ==> IsDottedChar(rest[i])
  }

  /** An accessor is one identifier, alone or followed by dotted segments. */
  lemma AccessorIff(e: string)
    ensures IsAccessor(e) <==> exists d :: 0 <= d <= |e| && IsIdent(e[..d]) && (d == |e| || IsRest(e[d..]))
  {
    if IsAccessor(e) {
      var d := Skip(e, 0, IsIdentChar);
      assert IsIdent(e[..d]);
      if d < |e| { assert forall i :: 1 <= i < |e| - d ==> e[d..][i] == e[d + i]; }
    }
    if d :| 0 <= d <= |e| && IsIdent(e[..d]) && (d == |e| || IsRest(e[d..])) {
      assert forall i :: 0 <= i < d ==> e[i] == e[..d][i];
      if d < |e| {
        assert e[d] == e[d..][0] && e[d + 1] == e[d..][1];
        assert !IsIdentChar('.');
        assert forall i :: d < i < |e| ==> e[i] == e[d..][i - d];
      }
      assert Skip(e, 0, IsIdentChar) == d;
    }
  }

  /** Everything before the first dot, and everything after it if there is one. */
  function CutAtDot(e: string): (r: (string, Option<string>)) {
    var d := Skip(e, 0, NotDot);
    (e[..d], if d < |e| then Some(e[d + 1..]) else None)
  }

  const OUTPUTS: string := "outputs."
  const HEADERS: string := "response.headers."

  function ResolveAccessor(e: string, c: Context): Result<string> {
    var (root, rest) := CutAtDot(e);
    if root == "fixtures" then
      if rest in {None, Some("")} then Err(NeedsName(root))
      else if rest.value in c.fixtures then Ok(c.fixtures[rest.value]) else Err(NotFound(root, rest.value))
    else if root == "env" then
      if rest in {None, Some("")} then Err(NeedsName(root))
      else if rest.value in c.env then Ok(c.env[rest.value]) else Err(NotFound(root, rest.value))
    else if root == "steps" then
      if rest == None then Err(NeedsName(root))
      else
        var (id, field) := CutAtDot(rest.value);
        if id !in c.steps then Err(StepNotRun(id))
        else if field == None then Err(NeedsField(id))
        else ResolveStepAccessor(id, field.value, c.steps[id])
    else Err(UnknownRoot(root))
  }

  function ResolveStepAccessor(id: string, field: string, s: ActionStep): Result<string> {
    if field == "verdict" then Ok(s.verdict)
    else if field == "severity" then Ok(s.severity)
    else if HasAt(field, 0, OUTPUTS) then
      var key := field[|OUTPUTS|..];
      if key in s.outputs then Ok(s.outputs[key]) else Err(NoOutput(id, key))
    else if field == "response.status" then
      if s.response == None then Err(NotHttp(id)) else Ok(s.response.value.status)
    else if HasAt(field, 0, HEADERS) then
      var h := field[|HEADERS|..];
      if s.response == None then Err(NotHttp(id))
      else if h in s.response.value.headers then Ok(s.response.value.headers[h]) else Err(NoHeader(id, h))
    else Err(BadField(id, field))
  }

  function Evaluate(e: string, c: Context): Result<string> {
    if IsAccessor(e) then ResolveAccessor(e, c) else Err(InvalidAccessor(e))
  }

  // ---- The accessor language -----------------------------------------------------------------------

  /** Everything a placeholder can ask for. */
  datatype Accessor = FixturePath(name: string) | EnvVar(name: string) | OfStep(id: string, field: Field)
  datatype Field = Verdict | Severity | Output(key: string) | Status | Header(name: string)

  const STATUS: string := "response.status"

  function SpellField(f: Field): string {
    match f
    case Verdict => "verdict"
    case Severity => "severity"
    case Output(key) => OUTPUTS + key
    case Status => STATUS
    case Header(name) => HEADERS + name
  }

  function Spell(a: Accessor): string {
    match a
    case FixturePath(n) => "fixtures" + "." + n
    case EnvVar(n) => "env" + "." + n
    case OfStep(id, f) => "steps" + "." + (id + "." + SpellField(f))
  }

  function In(m: map<string, string>, k: string): Option<string> {
    if k in m then Some(m[k]) else None
  }

  function FieldValue(f: Field, s: ActionStep): Option<string> {
    match f
    case Verdict => Some(s.verdict)
    case Severity => Some(s.severity)
    case Output(key) => In(s.outputs, key)
    case Status => if s.response.Some? then Some(s.response.value.status) else None
    case Header(name) => if s.response.Some? then In(s.response.value.headers, name) else None
  }

  /** The value asked for, if it is there. */
  function Value(a: Accessor, c: Context): Option<string> {
    match a
    case FixturePath(n) => In(c.fixtures, n)
    case EnvVar(n) => In(c.env, n)
    case OfStep(id, f) => if id in c.steps then FieldValue(f, c.steps[id]) else None
  }

  predicate Gives(r: Result<string>, v: Option<string>) {
    match r case Ok(x) => v == Some(x) case Err(_) => v == None
  }

  lemma CutSpelled(a: string, b: string)
    requires '.' !in a
    ensures CutAtDot(a + "." + b) == (a, Some(b))
  {
    var s := a + "." + b;
    SkipIs(s, 0, NotDot, |a|);
    assert s[..|a|] == a && s[|a| + 1..] == b;
  }

  lemma FieldResolves(id: string, f: Field, s: ActionStep)
    ensures Gives(ResolveStepAccessor(id, SpellField(f), s), FieldValue(f, s))
  {
    var t := SpellField(f);
    LiteralAt(t, 0, OUTPUTS);
    LiteralAt(t, 0, HEADERS);
    hide HasAt;
    match f
    case Output(key) =>
      assert t[0] == 'o' && t[|OUTPUTS|..] == key;
    case Status =>
      assert t[0] == 'r';
    case Header(name) =>
      assert t[0] == 'r' && t[9] == 'h' && STATUS[9] == 's' && t[|HEADERS|..] == name;
    case _ =>
  }

  /** Every accessor, spelled out, resolves exactly to what it asks for, and fails exactly when that is not there. */
  lemma SpelledResolves(a: Accessor, c: Context)
    requires if a.OfStep? then '.' !in a.id else a.name != ""
    ensures Gives(ResolveAccessor(Spell(a), c), Value(a, c))
  {
    hide ResolveStepAccessor, CutAtDot;
    match a
    case FixturePath(n) => CutSpelled("fixtures", n);
    case EnvVar(n) => CutSpelled("env", n);
    case OfStep(id, f) =>
      CutSpelled("steps", id + "." + SpellField(f));
      CutSpelled(id, SpellField(f));
      if id in c.steps { FieldResolves(id, f, c.steps[id]); }
      hide SpellField, FieldValue;
  }

  // ---- Rendering ----------------------------------------------------------------------------------

  const OPEN: string := "${{"

  /** The closing brace of the placeholder that starts at `i`, if one does. */
  function MatchEnd(s: string, i: nat): (r: Option<nat>)
    requires i <= |s|
    ensures r.Some? ==> i + 3 < r.value && r.value + 2 <= |s|
  {
    if !HasAt(s, i, OPEN) then None
    else
      var j := Skip(s, i + 3, NotBrace);
      if j > i + 3 && HasAt(s, j, "}}") then Some(j) else None
  }

  /** Where a placeholder is: two opening braces after a dollar sign, no brace, at least one character, two braces. */
  lemma MatchEndIff(s: string, i: nat, j: nat)
    requires i <= |s|
    ensures MatchEnd(s, i) == Some(j) <==>
            && i + 3 < j && j + 2 <= |s| && s[i..i + 3] == "${{" && s[j..j + 2] == "}}"
            && forall x :: i + 3 <= x < j ==> s[x] != '}'
  {
    if i + 3 <= |s| {
      var e := Skip(s, i + 3, NotBrace);
      assert e < |s| ==> s[e] == '}';
      if i + 3 <= j && j + 2 <= |s| {
        assert s[j..j + 2][0] == s[j];
        assert j < e ==> NotBrace(s[j]);
      }
    }
  }

  /** What the placeholder between `i` and `j` asks for, trimmed. */
  function Expr(s: string, i: nat, j: nat): string
    requires i + 3 <= j <= |s|
  {
    s[TrimStart(s, i + 3, j)..TrimEnd(s, i + 3, j)]
  }

  function Prepend(t: string, r: Result<string>): Result<string> {
    if r.Ok? then Ok(t + r.value) else r
  }

  /** `s` from `i` on, every placeholder replaced by its value; the first failure otherwise. */
  function Render(s: string, i: nat, c: Context): Result<string>
    requires i <= |s|
    decreases |s| - i
  {
    if i == |s| then Ok("")
    else
      match MatchEnd(s, i)
      case None => Prepend([s[i]], Render(s, i + 1, c))
      case Some(j) =>
        var v := Evaluate(Expr(s, i, j), c);
        if v.Err? then v else Prepend(v.value, Render(s, j + 2, c))
  }

  /** The accessors `Render` evaluates, in order. */
  function Accessors(s: string, i: nat): seq<string>
    requires i <= |s|
    decreases |s| - i
  {
    if i == |s| then []
    else match MatchEnd(s, i)
      case None => Accessors(s, i + 1)
      case Some(j) => [Expr(s, i, j)] + Accessors(s, j + 2)
  }

  lemma PrependTwice(a: string, b: string, r: Result<string>)
    ensures Prepend(a, Prepend(b, r)) == Prepend(a + b, r) && Prepend("", r) == r
  {
    if r.Ok? {
      assert a + (b + r.value) == (a + b) + r.value && "" + r.value == r.value;
    }
  }

  /** Left-to-right substitution; after the first failure nothing more is evaluated. */
  method RenderActions(input: string, c: Context) returns (r: Result<string>)
    ensures r == Render(input, 0, c)
  {
    hide *;
    var out, i := "", 0;
    RenderStart(input, c);
    while i < |input|
      invariant 0 <= i <= |input|
      invariant Render(input, 0, c) == Prepend(out, Render(input, i, c))
    {
      RenderStep(input, i, c, out);
      var j := MatchEnd(input, i);
      if j == None {
        out, i := out + [input[i]], i + 1;
      } else {
        var v := Evaluate(Expr(input, i, j.value), c);
        if v.Err? {
          return v;
        }
        out, i := out + v.value, j.value + 2;
      }
    }
    RenderEnd(input, c, out);
    r := Ok(out);
  }

  lemma RenderStart(s: string, c: Context)
    ensures Render(s, 0, c) == Prepend("", Render(s, 0, c))
  {
    PrependTwice("", "", Render(s, 0, c));
  }

  lemma RenderEnd(s: string, c: Context, out: string)
    ensures Prepend(out, Render(s, |s|, c)) == Ok(out)
  {
    assert out + "" == out;
  }

  lemma RenderStep(s: string, i: nat, c: Context, out: string)
    requires i < |s|
    ensures match MatchEnd(s, i)
            case None => Prepend(out, Render(s, i, c)) == Prepend(out + [s[i]], Render(s, i + 1, c))
            case Some(j) =>
              var v := Evaluate(Expr(s, i, j), c);
              Prepend(out, Render(s, i, c)) == if v.Err? then v else Prepend(out + v.value, Render(s, j + 2, c))
  {
    hide Evaluate, Expr, MatchEnd, Prepend;
    match MatchEnd(s, i)
    case None => PrependTwice(out, [s[i]], Render(s, i + 1, c));
    case Some(j) =>
      var v := Evaluate(Expr(s, i, j), c);
      if v.Err? {
        ErrStays(out, v);
      } else {
        PrependTwice(out, v.value, Render(s, j + 2, c));
      }
  }

  lemma ErrStays(t: string, r: Result<string>)
    requires r.Err?
    ensures Prepend(t, r) == r
  {}

  /**
   * A rendering succeeds exactly when every accessor has a value; otherwise it is the error of the first that has
   * none.
   */
  ghost predicate FirstFailure(r: Result<string>, es: seq<string>, c: Context) {
    match r
    case Ok(_) => forall k :: 0 <= k < |es| ==> Evaluate(es[k], c).Ok?
    case Err(e) => exists k :: FailsFirstAt(es, c, k) && Evaluate(es[k], c) == Err(e)
  }

  ghost predicate FailsFirstAt(es: seq<string>, c: Context, k: int) {
    0 <= k < |es| && Evaluate(es[k], c).Err? && forall m :: 0 <= m < k ==> Evaluate(es[m], c).Ok?
  }

  lemma {:induction false} RenderOkIff(s: string, i: nat, c: Context)
    requires i <= |s|
    ensures FirstFailure(Render(s, i, c), Accessors(s, i), c)
    decreases |s| - i
  {
    hide MatchEnd, Evaluate, Expr, Prepend, FirstFailure;
    if i == |s| {
      NothingFails(c);
    } else {
      var j := MatchEnd(s, i);
      if j == None {
        NoneFailsFirst([s[i]], Render(s, i + 1, c), Accessors(s, i + 1), c);
        RenderOkIff(s, i + 1, c);
      } else {
        var e, tail := Expr(s, i, j.value), Accessors(s, j.value + 2);
        RenderOkIff(s, j.value + 2, c);
        FirstFailureCons(e, Render(s, j.value + 2, c), tail, c);
      }
    }
  }

  lemma NothingFails(c: Context)
    ensures FirstFailure(Ok(""), [], c)
  {}

  lemma NoneFailsFirst(t: string, r: Result<string>, es: seq<string>, c: Context)
    ensures FirstFailure(r, es, c) ==> FirstFailure(Prepend(t, r), es, c)
  {}

  lemma FirstFailureCons(e: string, r: Result<string>, tail: seq<string>, c: Context)
    requires FirstFailure(r, tail, c)
    ensures var v := Evaluate(e, c); FirstFailure(if v.Err? then v else Prepend(v.value, r), [e] + tail, c)
  {
    hide Evaluate;
    var es, v := [e] + tail, Evaluate(e, c);
    if v.Err? {
      assert FailsFirstAt(es, c, 0);
    } else if r.Err? {
      var k :| FailsFirstAt(tail, c, k) && Evaluate(tail[k], c) == r;
      assert es[k + 1] == tail[k];
      assert FailsFirstAt(es, c, k + 1);
    }
  }

  // ---- Templates as text and placeholders ------------------------------------------------------------

  datatype Part = Text(text: string) | Hole(expr: string)

  /** No placeholder opens in the text. */
  predicate NoOpen(t: string) {
    forall i :: 0 <= i < |t| ==> !HasAt(t, i, OPEN)
  }

  /** Texts in which no placeholder opens, never two in a row, around holes that hold accessors. */
  predicate WellFormed(parts: seq<Part>) {
    && (forall i :: 0 <= i < |parts| ==> match parts[i] case Text(t) => NoOpen(t) case Hole(e) => IsAccessor(e))
    && forall i :: 0 <= i < |parts| - 1 ==> parts[i].Hole? || parts[i + 1].Hole?
  }

  function Quoted(e: string): string {
    "${{ " + e + " }}"
  }

  function Print(parts: seq<Part>): string {
    if parts == [] then ""
    else (match parts[0] case Text(t) => t case Hole(e) => Quoted(e)) + Print(parts[1..])
  }

  /** Text stands for itself, a hole for the value of its accessor. */
  function Meaning(parts: seq<Part>, c: Context): Result<string> {
    if parts == [] then Ok("")
    else
      match parts[0]
      case Text(t) => Prepend(t, Meaning(parts[1..], c))
      case Hole(e) =>
        var v := ResolveAccessor(e, c);
        if v.Err? then v else Prepend(v.value, Meaning(parts[1..], c))
  }

  /** Rendering a printed template, after any prefix, is its meaning. */
  lemma {:induction false} RenderPrinted(pre: string, parts: seq<Part>, c: Context)
    requires WellFormed(parts)
    ensures Render(pre + Print(parts), |pre|, c) == Meaning(parts, c)
    decreases |parts|
  {
    if parts != [] {
      var rest := parts[1..];
      assert WellFormed(rest);
      HeadWellFormed(parts);
      hide WellFormed, IsAccessor, ResolveAccessor, Render, Quoted, NoOpen;
      match parts[0]
      case Text(t) =>
        RenderPrinted(pre + t, rest, c);
        TextFirst(pre, t, Print(rest), c);
      case Hole(e) =>
        RenderPrinted(pre + Quoted(e), rest, c);
        HoleFirst(pre, e, Print(rest), c);
    } else {
      assert pre + "" == pre;
    }
  }

  lemma HeadWellFormed(parts: seq<Part>)
    requires WellFormed(parts) && parts != []
    ensures match parts[0]
            case Text(t) => NoOpen(t) && (Print(parts[1..]) == "" || Print(parts[1..])[0] == '$')
            case Hole(e) => IsAccessor(e)
  {
    if parts[0].Text? && |parts| > 1 {
      assert parts[0 + 1].Hole?;
      assert Quoted(parts[1].expr)[0] == '$';
    }
  }

  /** No placeholder opens in a text without one that is followed by nothing or by a placeholder. */
  lemma NoneOpensBefore(s: string, i: nat, k: nat, x: nat)
    requires i <= x < k <= |s| && NoOpen(s[i..k]) && (k < |s| ==> s[k] == '$')
    ensures !HasAt(s, x, OPEN)
  {
    LiteralAt(s, x, OPEN);
    LiteralAt(s[i..k], x - i, OPEN);
  }

  lemma TextFirst(pre: string, t: string, tail: string, c: Context)
    requires NoOpen(t) && (tail == "" || tail[0] == '$')
    ensures Render(pre + (t + tail), |pre|, c) == Prepend(t, Render((pre + t) + tail, |pre + t|, c))
  {
    var s := pre + (t + tail);
    assert s == (pre + t) + tail;
    assert s[|pre|..|pre + t|] == t;
    hide NoOpen, HasAt;
    forall x | |pre| <= x < |pre + t| ensures !HasAt(s, x, OPEN) {
      NoneOpensBefore(s, |pre|, |pre + t|, x);
    }
    RenderText(s, |pre|, |pre + t|, c);
  }

  lemma HoleFirst(pre: string, e: string, tail: string, c: Context)
    requires IsAccessor(e)
    ensures var head, v := pre + Quoted(e), ResolveAccessor(e, c);
            Render(pre + (Quoted(e) + tail), |pre|, c) ==
              if v.Err? then v else Prepend(v.value, Render(head + tail, |head|, c))
  {
    hide *;
    var head := pre + Quoted(e);
    var s := pre + (Quoted(e) + tail);
    assert s == head + tail;
    QuotedAt(pre, e, tail);
    HoleMatches(s, |pre|, e);
    RenderHole(s, |pre|, |pre| + 4 + |e| + 1, e, c);
  }

  /** A placeholder for `e` stands at `i`. */
  ghost predicate HoleAt(s: string, i: nat, e: string) {
    i + 4 + |e| + 3 <= |s| && HasAt(s, i, "${{ ") && s[i + 4..i + 4 + |e|] == e && HasAt(s, i + 4 + |e|, " }}")
  }

  lemma QuotedAt(pre: string, e: string, tail: string)
    ensures HoleAt(pre + (Quoted(e) + tail), |pre|, e) && |pre + Quoted(e)| == |pre| + 4 + |e| + 3
  {
    var s, i := pre + (Quoted(e) + tail), |pre|;
    assert s == pre + "${{ " + e + " }}" + tail;
    assert s[i..i + 4] == "${{ ";
    assert s[i + 4..i + 4 + |e|] == e;
    assert s[i + 4 + |e|..i + 4 + |e| + 3] == " }}";
  }

  lemma {:induction false} RenderText(s: string, i: nat, k: nat, c: Context)
    requires i <= k <= |s| && forall x :: i <= x < k ==> !HasAt(s, x, OPEN)
    ensures Render(s, i, c) == Prepend(s[i..k], Render(s, k, c))
    decreases k - i
  {
    hide Prepend, Evaluate, Expr, HasAt;
    if i == k {
      PrependTwice("", "", Render(s, i, c));
    } else {
      RenderText(s, i + 1, k, c);
      PrependTwice([s[i]], s[i + 1..k], Render(s, k, c));
      assert s[i..k] == [s[i]] + s[i + 1..k];
    }
  }

  lemma RenderHole(s: string, i: nat, j: nat, e: string, c: Context)
    requires i < |s| && MatchEnd(s, i) == Some(j) && Expr(s, i, j) == e && IsAccessor(e)
    ensures var v := ResolveAccessor(e, c);
            Render(s, i, c) == if v.Err? then v else Prepend(v.value, Render(s, j + 2, c))
  {
    hide MatchEnd, Expr, ResolveAccessor, IsAccessor;
  }

  lemma HoleMatches(s: string, i: nat, e: string)
    requires IsAccessor(e) && HoleAt(s, i, e)
    ensures var j := i + 4 + |e| + 1; MatchEnd(s, i) == Some(j) && Expr(s, i, j) == e
  {
    var a, b := i + 4, i + 4 + |e|;
    var j := b + 1;
    HoleEnds(s, i, e);
    HoleInside(s, i, e);
    hide IsAccessor, HasAt, HoleAt, IsSpace, NotBrace;
    SkipIs(s, i + 3, NotBrace, j);
    TrimIs(s, i + 3, a, b, j);
  }

  lemma HoleEnds(s: string, i: nat, e: string)
    requires HoleAt(s, i, e)
    ensures HasAt(s, i, OPEN) && s[i + 3] == ' ' && s[i + 4 + |e|] == ' ' && HasAt(s, i + 4 + |e| + 1, "}}") &&
            s[i + 4 + |e| + 1] == '}'
  {
    var b := i + 4 + |e|;
    LiteralAt(s, i, "${{ ");
    LiteralAt(s, b, " }}");
    LiteralAt(s, i, OPEN);
    LiteralAt(s, b + 1, "}}");
  }

  lemma HoleInside(s: string, i: nat, e: string)
    requires IsAccessor(e) && HoleAt(s, i, e)
    ensures var a, b := i + 4, i + 4 + |e|;
            && a < b < |s| - 2 && s[a..b] == e && All(s, i + 3, b + 1, NotBrace) && !NotBrace(s[b + 1])
            && All(s, i + 3, a, IsSpace) && All(s, b, b + 1, IsSpace) && !IsSpace(s[a]) && !IsSpace(s[b - 1])
  {
    AccessorChars(e);
    HoleEnds(s, i, e);
    hide IsAccessor, HasAt;
    assert forall x :: i + 4 <= x < i + 4 + |e| ==> s[x] == e[x - (i + 4)];
  }

  lemma AccessorChars(e: string)
    requires IsAccessor(e)
    ensures |e| > 0 && forall k :: 0 <= k < |e| ==> NotBrace(e[k]) && !IsSpace(e[k])
  {}

  lemma TrimIs(s: string, lo: nat, a: nat, b: nat, hi: nat)
    requires lo <= a < b <= hi <= |s| && All(s, lo, a, IsSpace) && All(s, b, hi, IsSpace) && !IsSpace(s[a]) &&
             !IsSpace(s[b - 1])
    ensures TrimStart(s, lo, hi) == a && TrimEnd(s, lo, hi) == b
  {
    var x, y := TrimStart(s, lo, hi), TrimEnd(s, lo, hi);
    assert x >= a;
  }
}
