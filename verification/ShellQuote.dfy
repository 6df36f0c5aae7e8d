/** Quoting for the shell, against how the shell splits a command into words. */
module ShellQuote {
  import opened Options

  // ---- The printer ---------------------------------------------------------------------------------

  /** Every single quote becomes: close, escaped quote, reopen. */
  function Replaced(s: string): string {
    if s == "" then ""
    else (if s[0] == '\'' then "'\\''" else [s[0]]) + Replaced(s[1..])
  }

  function ShellEscape(s: string): string {
    "'" + Replaced(s) + "'"
  }

  function JoinAnd(parts: seq<string>): string {
    if parts == [] then "" else if |parts| == 1 then parts[0] else parts[0] + " && " + JoinAnd(parts[1..])
  }

  function Test(path: string): string { "test -f " + ShellEscape(path) }
  function Parse(path: string): string { "jq -e . " + ShellEscape(path) + " >/dev/null" }

  const OK_TEXT: string := "fixtures-ok\\n"
  const OK_MARK: string := "printf '" + OK_TEXT + "'"
  const SKIP_TEXT: string := "no fixtures " + "declared on " + "usecase; " + "skipping " + "fixture " + "check\\n"
  const NO_FIXTURES: string := "printf '" + SKIP_TEXT + "'"

  method E2eFixtureCheckCommand(triggerPath: string, outcomePath: string) returns (command: string)
    ensures command == if triggerPath == "" && outcomePath == "" then NO_FIXTURES
            else JoinAnd(["set -e"] + Checks(triggerPath) + Checks(outcomePath) + [OK_MARK])
  {
    var parts := ["set -e"];
    if triggerPath != "" {
      parts := parts + [Test(triggerPath), Parse(triggerPath)];
    }
    if outcomePath != "" {
      parts := parts + [Test(outcomePath), Parse(outcomePath)];
    }
    if |parts| == 1 {
      return NO_FIXTURES;
    }
    assert parts == ["set -e"] + Checks(triggerPath) + Checks(outcomePath);
    parts := parts + [OK_MARK];
    command := JoinAnd(parts);
  }

  function Checks(path: string): seq<string> {
    if path == "" then [] else [Test(path), Parse(path)]
  }

  // ---- The shell's token recognition -----------------------------------------------------------------

  datatype Token = Word(text: string) | And | Redirect

  /** Characters that stand for themselves outside quotes. */
  predicate IsPlain(c: char) {
    'a' <= c <= 'z' || 'A' <= c <= 'Z' || '0' <= c <= '9' || c in "-_./"
  }

  function Flush(word: Option<string>): seq<Token> {
    match word case Some(w) => [Word(w)] case None => []
  }

  function Cons(ts: seq<Token>, rest: Option<seq<Token>>): Option<seq<Token>> {
    match rest case Some(r) => Some(ts + r) case None => None
  }

  /**
   * Sections 2.2.1, 2.2.2 and 2.3 of POSIX Shell Command Language for blanks, single quotes, backslashes, `&&` and
   * `>`; `word` is the word being read. Nothing for an open quote and for any unquoted character that means
   * something else.
   */
  function Lex(s: string, word: Option<string>): Option<seq<Token>>
    decreases |s|
  {
    if s == "" then Some(Flush(word))
    else if s[0] == ' ' then Cons(Flush(word), Lex(s[1..], None))
    else if s[0] == '\'' then LexQuoted(s[1..], word.GetOr(""))
    else if s[0] == '\\' then if |s| == 1 || s[1] == '\n' then None else Lex(s[2..], Some(word.GetOr("") + [s[1]]))
    else if s[0] == '&' then if |s| > 1 && s[1] == '&' then Cons(Flush(word) + [And], Lex(s[2..], None)) else None
    else if s[0] == '>' then if word.Some? || (|s| > 1 && s[1] in ">&|") then None
      else Cons(Flush(word) + [Redirect], Lex(s[1..], None))
    else if IsPlain(s[0]) then Lex(s[1..], Some(word.GetOr("") + [s[0]]))
    else None
  }

  /** Everything up to the next single quote is taken as it is. */
  function LexQuoted(s: string, word: string): Option<seq<Token>>
    decreases |s|
  {
    if s == "" then None
    else if s[0] == '\'' then Lex(s[1..], Some(word))
    else LexQuoted(s[1..], word + [s[0]])
  }

  /** Quoted text adds exactly itself to the word being read, wherever it stands. */
  lemma QuotedAddsItself(s: string, word: Option<string>, rest: string)
    ensures Lex(ShellEscape(s) + rest, word) == Lex(rest, Some(word.GetOr("") + s))
  {
    var text := ShellEscape(s) + rest;
    assert text[0] == '\'';
    assert text[1..] == Replaced(s) + ("'" + rest);
    ReplacedReads(s, word.GetOr(""), rest);
  }

  lemma {:induction false} ReplacedReads(s: string, word: string, rest: string)
    ensures LexQuoted(Replaced(s) + ("'" + rest), word) == Lex(rest, Some(word + s))
  {
    if s == "" {
      assert Replaced(s) + ("'" + rest) == "'" + rest;
      assert ("'" + rest)[1..] == rest && word + s == word;
    } else {
      var tail := Replaced(s[1..]) + ("'" + rest);
      ReplacedReads(s[1..], word + [s[0]], rest);
      assert (word + [s[0]]) + s[1..] == word + s;
      if s[0] == '\'' {
        assert Replaced(s) + ("'" + rest) == "'\\''" + tail;
        ReopenReads(word, tail);
      } else {
        assert Replaced(s) + ("'" + rest) == [s[0]] + tail;
        assert ([s[0]] + tail)[1..] == tail;
      }
    }
  }

  lemma ReopenReads(word: string, tail: string)
    ensures LexQuoted("'\\''" + tail, word) == LexQuoted(tail, word + "'")
  {
    var t := "'\\''" + tail;
    assert t[1..] == "\\''" + tail;
    assert t[1..][2..] == "'" + tail;
    assert ("'" + tail)[1..] == tail;
    assert LexQuoted(t, word) == Lex(t[1..], Some(word));
    assert Lex(t[1..], Some(word)) == Lex("'" + tail, Some(word + "'"));
  }

  /** The shell reads a quoted string as one word, the string itself, whatever it contains. */
  lemma EscapeIsOneWord(s: string)
    ensures Lex(ShellEscape(s), None) == Some([Word(s)])
  {
    QuotedAddsItself(s, None, "");
    assert ShellEscape(s) + "" == ShellEscape(s) && "" + s == s;
  }

  // ---- Whole commands --------------------------------------------------------------------------------

  lemma {:induction false} PlainReads(w: string, word: Option<string>, rest: string)
    requires w != "" && forall i :: 0 <= i < |w| ==> IsPlain(w[i])
    ensures Lex(w + rest, word) == Lex(rest, Some(word.GetOr("") + w))
    decreases |w|
  {
    assert (w + rest)[1..] == w[1..] + rest;
    if |w| == 1 {
      assert w[1..] + rest == rest && [w[0]] == w;
    } else {
      PlainReads(w[1..], Some(word.GetOr("") + [w[0]]), rest);
      assert (word.GetOr("") + [w[0]]) + w[1..] == word.GetOr("") + w;
    }
  }

  ghost predicate IsPlainWord(w: string) {
    w != "" && forall i :: 0 <= i < |w| ==> IsPlain(w[i])
  }

  lemma SpaceStep(rest: string, word: Option<string>)
    ensures Lex(" " + rest, word) == Cons(Flush(word), Lex(rest, None))
  {
    assert (" " + rest)[1..] == rest;
  }

  lemma AndStep(rest: string)
    ensures Lex("&&" + rest, None) == Cons([And], Lex(rest, None))
  {
    assert ("&&" + rest)[2..] == rest && Flush(None) + [And] == [And];
  }

  lemma RedirectStep(rest: string)
    requires rest != "" && rest[0] == '/'
    ensures Lex(">" + rest, None) == Cons([Redirect], Lex(rest, None))
  {
    assert (">" + rest)[1..] == rest && Flush(None) + [Redirect] == [Redirect];
  }

  lemma ConsTwice(a: seq<Token>, b: seq<Token>, r: Option<seq<Token>>)
    ensures Cons(a, Cons(b, r)) == Cons(a + b, r) && Cons([], r) == r
  {
    if r.Some? { assert a + (b + r.value) == (a + b) + r.value && [] + r.value == r.value; }
  }

  /** `p` is read as the tokens `ts` and the last word `w`, which what follows may still extend. */
  ghost predicate Reads(p: string, ts: seq<Token>, w: string) {
    forall rest :: Lex(p + rest, None) == Cons(ts, Lex(rest, Some(w)))
  }

  lemma PlainWordReads(w: string)
    requires IsPlainWord(w)
    ensures Reads(w, [], w)
  {
    forall rest ensures Lex(w + rest, None) == Cons([], Lex(rest, Some(w))) {
      PlainReads(w, None, rest);
      assert "" + w == w;
      ConsTwice([], [], Lex(rest, Some(w)));
    }
  }

  lemma QuotedReads(s: string)
    ensures Reads(ShellEscape(s), [], s)
  {
    hide Lex, Cons, ShellEscape;
    forall rest ensures Lex(ShellEscape(s) + rest, None) == Cons([], Lex(rest, Some(s))) {
      QuotedAddsItself(s, None, rest);
      assert "" + s == s;
      ConsTwice([], [], Lex(rest, Some(s)));
    }
  }

  /** A plain word and a space in front. */
  lemma WordInFront(v: string, p: string, ts: seq<Token>, w: string)
    requires IsPlainWord(v) && Reads(p, ts, w)
    ensures Reads(v + " " + p, [Word(v)] + ts, w)
  {
    hide Lex, Cons;
    forall rest ensures Lex((v + " " + p) + rest, None) == Cons([Word(v)] + ts, Lex(rest, Some(w))) {
      assert (v + " " + p) + rest == v + (" " + (p + rest));
      PlainReads(v, None, " " + (p + rest));
      assert "" + v == v;
      SpaceStep(p + rest, Some(v));
      ConsTwice([Word(v)], ts, Lex(rest, Some(w)));
    }
  }

  /** Output sent to a file after a word. */
  lemma RedirectBehind(p: string, w: string, file: string)
    requires Reads(p, [], w) && IsPlainWord(file) && file[0] == '/'
    ensures Reads(p + " >" + file, [Word(w), Redirect], file)
  {
    hide Lex, Cons;
    forall rest ensures Lex((p + " >" + file) + rest, None) == Cons([Word(w), Redirect], Lex(rest, Some(file))) {
      assert (p + " >" + file) + rest == p + (" " + (">" + (file + rest)));
      ConsTwice([], [], Lex(" " + (">" + (file + rest)), Some(w)));
      SpaceStep(">" + (file + rest), Some(w));
      RedirectStep(file + rest);
      PlainReads(file, None, rest);
      assert "" + file == file;
      ConsTwice([Word(w)], [Redirect], Lex(rest, Some(file)));
      assert [Word(w)] + [Redirect] == [Word(w), Redirect];
    }
  }

  lemma SetReads()
    ensures Reads("set -e", [Word("set")], "-e")
  {
    PlainWordReads("-e");
    WordInFront("set", "-e", [], "-e");
    assert "set" + " " + "-e" == "set -e" && [Word("set")] + [] == [Word("set")];
  }

  lemma MarkReads(text: string)
    requires '\'' !in text
    ensures Reads("printf '" + text + "'", [Word("printf")], text)
  {
    NothingReplaced(text);
    assert "printf" + " " + ShellEscape(text) == "printf '" + text + "'" && [Word("printf")] + [] == [Word("printf")];
    hide Reads, ShellEscape, Replaced;
    QuotedReads(text);
    WordInFront("printf", ShellEscape(text), [], text);
  }

  lemma {:induction false} NothingReplaced(s: string)
    requires '\'' !in s
    ensures Replaced(s) == s
  {
    if s != "" { NothingReplaced(s[1..]); }
  }

  lemma TestReads(path: string)
    ensures Reads(Test(path), [Word("test"), Word("-f")], path)
  {
    var q := ShellEscape(path);
    assert Test(path) == "test" + " " + ("-f" + " " + q);
    QuotedReads(path);
    hide Reads, ShellEscape, Test;
    WordInFront("-f", q, [], path);
    WordInFront("test", "-f" + " " + q, [Word("-f")] + [], path);
    assert [Word("test")] + ([Word("-f")] + []) == [Word("test"), Word("-f")];
  }

  lemma ParseReads(path: string)
    ensures Reads(Parse(path), [Word("jq"), Word("-e"), Word("."), Word(path), Redirect], "/dev/null")
  {
    var tail, ts := ShellEscape(path) + " >" + "/dev/null", [Word(path), Redirect];
    assert Parse(path) == "jq" + " " + ("-e" + " " + ("." + " " + tail));
    QuotedReads(path);
    hide Reads, ShellEscape, Parse;
    RedirectBehind(ShellEscape(path), path, "/dev/null");
    WordInFront(".", tail, ts, "/dev/null");
    WordInFront("-e", "." + " " + tail, [Word(".")] + ts, "/dev/null");
    WordInFront("jq", "-e" + " " + ("." + " " + tail), [Word("-e")] + ([Word(".")] + ts), "/dev/null");
    assert [Word("jq")] + ([Word("-e")] + ([Word(".")] + ts)) ==
           [Word("jq"), Word("-e"), Word("."), Word(path), Redirect];
  }

  // ---- Parts joined by && ------------------------------------------------------------------------------

  datatype Part = Part(text: string, tokens: seq<Token>, last: string)

  function Texts(ps: seq<Part>): seq<string> {
    if ps == [] then [] else [ps[0].text] + Texts(ps[1..])
  }

  function Tokens(ps: seq<Part>): seq<Token> {
    if ps == [] then [] else ps[0].tokens + [Word(ps[0].last)] + (if |ps| == 1 then [] else [And]) + Tokens(ps[1..])
  }

  lemma {:induction false} JoinReads(ps: seq<Part>)
    requires ps != [] && forall i :: 0 <= i < |ps| ==> Reads(ps[i].text, ps[i].tokens, ps[i].last)
    ensures Lex(JoinAnd(Texts(ps)), None) == Some(Tokens(ps))
  {
    var p := ps[0];
    assert Reads(p.text, p.tokens, p.last);
    hide Lex, Cons, Reads;
    if |ps| == 1 {
      assert Texts(ps) == [p.text];
      ReadsAlone(p);
      assert Tokens(ps) == p.tokens + [Word(p.last)];
    } else {
      var rest := JoinAnd(Texts(ps[1..]));
      JoinReads(ps[1..]);
      assert JoinAnd(Texts(ps)) == p.text + " && " + rest;
      ReadsAnd(p, rest, Tokens(ps[1..]));
    }
  }

  lemma ReadsAlone(p: Part)
    requires Reads(p.text, p.tokens, p.last)
    ensures Lex(p.text, None) == Some(p.tokens + [Word(p.last)])
  {
    assert p.text + "" == p.text;
    assert Lex("", Some(p.last)) == Some([Word(p.last)]);
    hide Lex;
  }

  lemma ReadsAnd(p: Part, rest: string, ts: seq<Token>)
    requires Reads(p.text, p.tokens, p.last) && Lex(rest, None) == Some(ts)
    ensures Lex(p.text + " && " + rest, None) == Some(p.tokens + [Word(p.last)] + [And] + ts)
  {
    hide Lex;
    assert p.text + " && " + rest == p.text + (" " + ("&&" + (" " + rest)));
    SpaceStep("&&" + (" " + rest), Some(p.last));
    AndStep(" " + rest);
    SpaceStep(rest, None);
    assert p.tokens + ([Word(p.last)] + ([And] + ([] + ts))) == p.tokens + [Word(p.last)] + [And] + ts;
  }

  function CheckParts(path: string): seq<Part> {
    if path == "" then []
    else [Part(Test(path), [Word("test"), Word("-f")], path),
          Part(Parse(path), [Word("jq"), Word("-e"), Word("."), Word(path), Redirect], "/dev/null")]
  }

  function AllParts(trigger: string, outcome: string): seq<Part> {
    [Part("set -e", [Word("set")], "-e")] + CheckParts(trigger) + CheckParts(outcome) + [Part(OK_MARK,
      [Word("printf")], OK_TEXT)]
  }

  /** The command is read as the intended words whatever the two paths contain; a path never ends its own word. */
  lemma CheckCommandReads(trigger: string, outcome: string)
    ensures Lex(JoinAnd(["set -e"] + Checks(trigger) + Checks(outcome) + [OK_MARK]), None) ==
            Some(Tokens(AllParts(trigger, outcome)))
    ensures Lex(NO_FIXTURES, None) == Some([Word("printf"), Word(SKIP_TEXT)])
  {
    var ps := AllParts(trigger, outcome);
    SetReads();
    MarkReads(OK_TEXT);
    TestReads(trigger);
    TestReads(outcome);
    ParseReads(trigger);
    ParseReads(outcome);
    PartTexts(trigger, outcome);
    SkipReads();
    hide Reads, Test, Parse;
    JoinReads(ps);
  }

  lemma SkipReads()
    ensures Lex(NO_FIXTURES, None) == Some([Word("printf"), Word(SKIP_TEXT)])
  {
    assert '\'' !in SKIP_TEXT by {
      assert '\'' !in "no fixtures " && '\'' !in "declared on " && '\'' !in "usecase; ";
      assert '\'' !in "skipping " && '\'' !in "fixture " && '\'' !in "check\\n";
    }
    MarkReads(SKIP_TEXT);
    ReadsAlone(Part(NO_FIXTURES, [Word("printf")], SKIP_TEXT));
    assert [Word("printf")] + [Word(SKIP_TEXT)] == [Word("printf"), Word(SKIP_TEXT)];
  }

  lemma {:induction false} TextsConcat(a: seq<Part>, b: seq<Part>)
    ensures Texts(a + b) == Texts(a) + Texts(b)
  {
    if a == [] {
      assert a + b == b;
    } else {
      TextsConcat(a[1..], b);
      assert (a + b)[1..] == a[1..] + b && (a + b)[0] == a[0];
    }
  }

  lemma PartTexts(trigger: string, outcome: string)
    ensures Texts(AllParts(trigger, outcome)) == ["set -e"] + Checks(trigger) + Checks(outcome) + [OK_MARK]
  {
    var a, b, c, d := [Part("set -e", [Word("set")], "-e")], CheckParts(trigger), CheckParts(outcome),
      [Part(OK_MARK, [Word("printf")], OK_TEXT)];
    TextsConcat(a + b + c, d);
    TextsConcat(a + b, c);
    TextsConcat(a, b);
    CheckTexts(trigger);
    CheckTexts(outcome);
    hide CheckParts, Checks;
    assert Texts(a) == ["set -e"] && Texts(d) == [OK_MARK];
  }

  lemma CheckTexts(path: string)
    ensures Texts(CheckParts(path)) == Checks(path)
  {
    hide Test, Parse;
    if path != "" {
      var ps := CheckParts(path);
      assert Texts(ps[2..]) == [] && Texts(ps[1..]) == [ps[1].text] + Texts(ps[1..][1..]) && ps[1..][1..] == ps[2..];
    }
  }
}
