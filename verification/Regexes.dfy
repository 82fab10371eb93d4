/**
 The patterns `generateTaskPlan` uses to pull fields out of a model's answer, as matchers on
 the text that remains. Whitespace, colons and quotes never overlap in them, so the greedy
 parts need no backtracking.
 */
module Regexes {
  import opened Common

  /** The three shapes of a field's value: a quoted text, a boolean, a one-line list. */
  datatype Kind = Text | Flag | List

  /** A capture and the text after the match. */
  datatype Capture = Capture(value: string, rest: string)

  predicate IsLineEnd(c: char) {
    c == '\n' || c == '\r' || c == '\U{2028}' || c == '\U{2029}'
  }

  predicate StartsWith(s: string, p: string) {
    p <= s
  }

  /** `([^"]*)"` */
  function UpToQuote(s: string): Option<Capture> {
    if s == "" then None
    else if s[0] == '"' then Some(Capture("", s[1..]))
    else
      var r := UpToQuote(s[1..]);
      if r.None? then None else Some(Capture([s[0]] + r.value.value, r.value.rest))
  }

  /** `(.*?)\]` */
  function UpToBracket(s: string): Option<Capture> {
    if s == "" || (IsLineEnd(s[0]) && s[0] != ']') then None
    else if s[0] == ']' then Some(Capture("", s[1..]))
    else
      var r := UpToBracket(s[1..]);
      if r.None? then None else Some(Capture([s[0]] + r.value.value, r.value.rest))
  }

  /** The part of a field pattern after the colon's whitespace. */
  function MatchValue(kind: Kind, s: string): Option<Capture> {
    match kind
    case Text => if s != "" && s[0] == '"' then UpToQuote(s[1..]) else None
    case Flag =>
      if StartsWith(s, "true") then Some(Capture("true", s[4..]))
      else if StartsWith(s, "false") then Some(Capture("false", s[5..]))
      else None
    case List => if s != "" && s[0] == '[' then UpToBracket(s[1..]) else None
  }

  /** The part of a field pattern after the quoted key: `\s*:\s*` and the value. */
  function MatchAfterKey(kind: Kind, s: string): Option<Capture> {
    var t := TrimStart(s);
    if t != "" && t[0] == ':' then MatchValue(kind, TrimStart(t[1..])) else None
  }

  function Quoted(s: string): string {
    "\"" + s + "\""
  }

  /** A field pattern, anchored at the start of the text. */
  function MatchField(key: string, kind: Kind, s: string): Option<Capture> {
    if StartsWith(s, Quoted(key)) then MatchAfterKey(kind, s[|key| + 2..]) else None
  }

  lemma {:induction false} TrimStartShrinks(s: string)
    ensures |TrimStart(s)| <= |s|
  {
    if s != "" && IsSpace(s[0]) {
      TrimStartShrinks(s[1..]);
    }
  }

  lemma {:induction false} UpToQuoteShrinks(s: string)
    ensures UpToQuote(s).Some? ==> |UpToQuote(s).value.rest| < |s|
  {
    if s != "" && s[0] != '"' {
      UpToQuoteShrinks(s[1..]);
    }
  }

  lemma {:induction false} UpToBracketShrinks(s: string)
    ensures UpToBracket(s).Some? ==> |UpToBracket(s).value.rest| < |s|
  {
    if s != "" && s[0] != ']' {
      UpToBracketShrinks(s[1..]);
    }
  }

  lemma MatchShrinks(key: string, kind: Kind, s: string)
    ensures MatchField(key, kind, s).Some? ==> |MatchField(key, kind, s).value.rest| < |s|
  {
    if StartsWith(s, Quoted(key)) {
      var u := s[|key| + 2..];
      TrimStartShrinks(u);
      var t := TrimStart(u);
      if t != "" {
        TrimStartShrinks(t[1..]);
        var v := TrimStart(t[1..]);
        if v != "" {
          UpToQuoteShrinks(v[1..]);
          UpToBracketShrinks(v[1..]);
        }
      }
    }
  }

  /** All captures of a global field pattern, left to right and not overlapping. */
  function FindAll(key: string, kind: Kind, s: string): seq<string>
    decreases |s|
  {
    if s == "" then []
    else
      var m := MatchField(key, kind, s);
      MatchShrinks(key, kind, s);
      if m.Some? then [m.value.value] + FindAll(key, kind, m.value.rest) else FindAll(key, kind, s[1..])
  }

  /** All captures of `"([^"]*)"`. */
  function FindQuoted(s: string): seq<string>
    decreases |s|
  {
    if s == "" then []
    else if s[0] == '"' && UpToQuote(s[1..]).Some? then
      UpToQuoteShrinks(s[1..]);
      [UpToQuote(s[1..]).value.value] + FindQuoted(UpToQuote(s[1..]).value.rest)
    else FindQuoted(s[1..])
  }

  /** `replace(/\/\/.*$/gm, '')`: a comment goes up to the end of its line. */
  function StripComments(s: string): string
    decreases |s|
  {
    if s == "" then ""
    else if StartsWith(s, "//") then StripComments(RestOfLine(s))
    else [s[0]] + StripComments(s[1..])
  }

  function RestOfLine(s: string): (r: string)
    ensures |r| <= |s|
    ensures s != "" && !IsLineEnd(s[0]) ==> |r| < |s|
  {
    if s == "" || IsLineEnd(s[0]) then s else RestOfLine(s[1..])
  }

  /** A comment ends before any of the four line terminators, and the rest of the text stays. */
  lemma {:induction false} CommentEnds(comment: string, c: char, rest: string)
    requires c == '\n' || c == '\r' || c == '\U{2028}' || c == '\U{2029}'
    requires forall x :: x in comment ==> x != '\n' && x != '\r' && x != '\U{2028}' && x != '\U{2029}'
    ensures StripComments("//" + (comment + ([c] + rest))) == StripComments([c] + rest)
    ensures StripComments([c] + rest) == [c] + StripComments(rest)
  {
    var line := "//" + comment;
    var t := line + ([c] + rest);
    assert "//" + (comment + ([c] + rest)) == t && t[..2] == "//";
    LineEndsAt(line, c, rest);
    assert "//"[0] == '/' && ([c] + rest)[0] == c && ([c] + rest)[1..] == rest;
  }

  lemma {:induction false} LineEndsAt(line: string, c: char, rest: string)
    requires IsLineEnd(c) && forall x :: x in line ==> !IsLineEnd(x)
    ensures RestOfLine(line + ([c] + rest)) == [c] + rest
    decreases |line|
  {
    var t := line + ([c] + rest);
    if line == "" {
      assert t == [c] + rest;
    } else {
      assert line[0] in line && t[1..] == line[1..] + ([c] + rest);
      LineEndsAt(line[1..], c, rest);
    }
  }

  // ---------- scanning text piece by piece ----------

  predicate NoQuote(s: string) {
    '"' !in s
  }

  lemma {:induction false} UpToQuoteOf(v: string, s: string)
    requires NoQuote(v)
    ensures UpToQuote(v + "\"" + s) == Some(Capture(v, s))
  {
    var t := v + "\"" + s;
    if v == "" {
      assert t[1..] == s;
    } else {
      assert v[0] in v && v == [v[0]] + v[1..];
      assert t[0] == v[0] && t[1..] == v[1..] + "\"" + s;
      UpToQuoteOf(v[1..], s);
    }
  }

  lemma {:induction false} UpToBracketOf(v: string, s: string)
    requires forall c :: c in v ==> c != ']' && !IsLineEnd(c)
    ensures UpToBracket(v + "]" + s) == Some(Capture(v, s))
  {
    var t := v + "]" + s;
    if v == "" {
      assert t[1..] == s;
    } else {
      assert v[0] in v && v == [v[0]] + v[1..];
      assert t[0] == v[0] && t[1..] == v[1..] + "]" + s;
      forall c | c in v[1..] ensures c != ']' && !IsLineEnd(c) {
        assert c in v;
      }
      UpToBracketOf(v[1..], s);
    }
  }

  predicate Spaces(s: string) {
    forall c :: c in s ==> IsSpace(c)
  }

  lemma {:induction false} TrimStartOf(w: string, s: string)
    requires Spaces(w) && (s == "" || !IsSpace(s[0]))
    ensures TrimStart(w + s) == s
  {
    if w == "" {
      assert w + s == s;
    } else {
      assert (w + s)[1..] == w[1..] + s;
      TrimStartOf(w[1..], s);
    }
  }

  /** No field pattern can start inside text without quotes. */
  lemma {:induction false} SkipPlain(key: string, kind: Kind, o: string, s: string)
    requires NoQuote(o)
    ensures FindAll(key, kind, o + s) == FindAll(key, kind, s)
  {
    if o == "" {
      assert o + s == s;
    } else {
      assert (o + s)[1..] == o[1..] + s;
      assert Quoted(key)[0] == '"' && (o + s)[0] != '"';
      SkipPlain(key, kind, o[1..], s);
    }
  }

  lemma QuotedPrefix(key: string, q: string, s: string)
    requires NoQuote(key) && NoQuote(q)
    ensures StartsWith(Quoted(q) + s, Quoted(key)) <==> q == key
  {
    var t := Quoted(q) + s;
    var k := Quoted(key);
    assert forall i :: 0 <= i < |key| ==> k[i + 1] == key[i] && key[i] in key;
    assert forall i :: 0 <= i < |q| ==> t[i + 1] == q[i] && q[i] in q;
    assert k[|key| + 1] == '"' && t[|q| + 1] == '"';
    if k <= t {
      assert t[|key| + 1] == k[|key| + 1];
      assert forall i :: 0 <= i < |k| ==> t[i] == k[i];
      assert |q| == |key|;
      assert forall i :: 0 <= i < |q| ==> q[i] == t[i + 1] == k[i + 1] == key[i];
      assert q == key;
    }
    if q == key {
      assert t[..|key| + 2] == k;
    }
  }

  /** A quoted text that is not a field's key is skipped. */
  lemma SkipQuoted(key: string, kind: Kind, q: string, s: string)
    requires key != "" && NoQuote(key) && NoQuote(q)
    requires s != "" && s[0] != key[0]
    requires q == key ==> MatchAfterKey(kind, s).None?
    ensures FindAll(key, kind, Quoted(q) + s) == FindAll(key, kind, s)
  {
    var t := Quoted(q) + s;
    QuotedPrefix(key, q, s);
    assert t[|q| + 2..] == s;
    assert MatchField(key, kind, t).None?;
    assert t[1..] == q + ("\"" + s);
    SkipPlain(key, kind, q, "\"" + s);
    var u := "\"" + s;
    assert u[1] != Quoted(key)[1];
    assert u[1..] == s;
  }

  /** A key followed by a value of its kind is captured. */
  lemma TakeField(key: string, kind: Kind, s: string)
    requires NoQuote(key) && MatchAfterKey(kind, s).Some?
    ensures var c := MatchAfterKey(kind, s).value;
      FindAll(key, kind, Quoted(key) + s) == [c.value] + FindAll(key, kind, c.rest)
  {
    var t := Quoted(key) + s;
    QuotedPrefix(key, key, s);
    assert t[|key| + 2..] == s;
  }

  // ---------- comments ----------

  ghost predicate NoComment(s: string) {
    forall i, j :: 0 <= i < j < |s| && j == i + 1 ==> !(s[i] == '/' && s[j] == '/')
  }

  /** Stripping comments leaves a text as it is exactly when `//` occurs nowhere in it. */
  lemma {:induction false} StripIsIdentityIff(s: string)
    ensures |StripComments(s)| <= |s|
    ensures StripComments(s) == s <==> NoComment(s)
    decreases |s|
  {
    if s != "" {
      if StartsWith(s, "//") {
        StripIsIdentityIff(RestOfLine(s));
        assert s[0] == "//"[0] && s[1] == "//"[1];
        assert RestOfLine(s) == RestOfLine(s[1..]);
        assert |RestOfLine(s)| < |s|;
      } else {
        StripIsIdentityIff(s[1..]);
        assert s == [s[0]] + s[1..];
        if |s| > 1 {
          assert s[..2] == [s[0], s[1]];
          assert "//" == ['/', '/'];
          assert !(s[0] == '/' && s[1] == '/');
        }
        if NoComment(s) {
          forall i, j | 0 <= i < j < |s[1..]| && j == i + 1 ensures !(s[1..][i] == '/' && s[1..][j] == '/') {
            assert s[1..][i] == s[i + 1] && s[1..][j] == s[j + 1];
          }
        }
        if NoComment(s[1..]) {
          forall i, j | 0 <= i < j < |s| && j == i + 1 ensures !(s[i] == '/' && s[j] == '/') {
            if i > 0 {
              assert s[1..][i - 1] == s[i] && s[1..][j - 1] == s[j];
            }
          }
        }
      }
    }
  }
}
