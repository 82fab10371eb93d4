/** Reading back a printed plan gives the plan. */
module PlanRoundTrip {
  import opened Common
  import opened Plan
  import opened Regexes
  import opened PlanParser
  import opened Fences

  // ---------- one field ----------

  lemma NameFacts(f: Field)
    ensures Name(f) != "" && NoQuote(Name(f)) && 'a' <= Name(f)[0] <= 'z'
  {}

  lemma NamesDiffer(f: Field, g: Field)
    requires f != g
    ensures Name(f) != Name(g)
  {
    assert |Name(f)| == |Name(g)| ==> Name(f)[0] != Name(g)[0];
  }

  /** Text that can follow a value: it starts no key and no colon. */
  ghost predicate Break(s: string) {
    && s != ""
    && !('a' <= s[0] <= 'z')
    && s[0] != ':'
    && (TrimStart(s) != "" ==> TrimStart(s)[0] != ':')
  }

  lemma BreakEndsKey(kind: Kind, s: string)
    requires Break(s)
    ensures MatchAfterKey(kind, s).None?
  {}

  lemma SpacesPlain(w: string)
    requires Spaces(w)
    ensures NoQuote(w) && (w != "" ==> !('a' <= w[0] <= 'z'))
  {
    if w != "" {
      assert w[0] in w;
    }
  }

  lemma AfterColon(l: Layout, kind: Kind, p: string)
    requires ValidLayout(l) && p != "" && !IsSpace(p[0])
    ensures MatchAfterKey(kind, Colon(l) + p) == MatchValue(kind, p)
    ensures !('a' <= (Colon(l) + p)[0] <= 'z')
  {
    var u := ":" + (l.afterColon + p);
    assert Colon(l) + p == l.beforeColon + u;
    TrimStartOf(l.beforeColon, u);
    assert u[1..] == l.afterColon + p;
    TrimStartOf(l.afterColon, p);
    SpacesPlain(l.beforeColon);
  }

  lemma ColonPlain(l: Layout)
    requires ValidLayout(l)
    ensures NoQuote(Colon(l))
  {
    SpacesPlain(l.beforeColon);
    SpacesPlain(l.afterColon);
  }

  lemma {:induction false} DepsTextShape(l: Layout, deps: seq<string>)
    requires ValidLayout(l) && forall d :: d in deps ==> PrintableId(d)
    ensures forall c :: c in DepsText(l, deps) ==> c != ']' && !IsLineEnd(c)
    decreases |deps|
  {
    if deps != [] {
      DepsTextShape(l, deps[1..]);
      assert PrintableId(deps[0]);
    }
  }

  lemma {:induction false} SkipDeps(key: string, kind: Kind, l: Layout, deps: seq<string>, s: string)
    requires ValidLayout(l) && forall d :: d in deps ==> PrintableId(d)
    requires key != "" && NoQuote(key) && 'a' <= key[0] <= 'z'
    ensures FindAll(key, kind, DepsText(l, deps) + ("]" + s)) == FindAll(key, kind, s)
    decreases |deps|
  {
    if deps == [] {
      assert DepsText(l, deps) + ("]" + s) == "]" + s;
      SkipPlain(key, kind, "]", s);
    } else {
      assert PrintableId(deps[0]);
      var sep := if |deps| > 1 then "," + l.listGap else "";
      var rest := DepsText(l, deps[1..]) + ("]" + s);
      assert DepsText(l, deps) + ("]" + s) == Quoted(deps[0]) + (sep + rest);
      if |deps| == 1 {
        assert rest == "]" + s;
      }
      assert Break(sep + rest);
      BreakEndsKey(kind, sep + rest);
      SkipQuoted(key, kind, deps[0], sep + rest);
      SpacesPlain(l.listGap);
      SkipPlain(key, kind, sep, rest);
      SkipDeps(key, kind, l, deps[1..], s);
    }
  }

  ghost function Wanted(l: Layout, t: Task, key: Field, f: Field): seq<string> {
    if f == key then [Raw(l, t, f)] else []
  }

  lemma RawText(l: Layout, t: Task, f: Field)
    requires Printable(t) && KindOf(f).Text?
    ensures NoQuote(Raw(l, t, f)) && NoComment(Raw(l, t, f))
  {}

  lemma CaptureText(v: string, s: string)
    requires NoQuote(v)
    ensures MatchValue(Text, Quoted(v) + s) == Some(Capture(v, s))
  {
    UpToQuoteOf(v, s);
    assert (Quoted(v) + s)[1..] == v + "\"" + s;
  }

  lemma CaptureFlag(b: bool, s: string)
    ensures var v := if b then "true" else "false"; MatchValue(Flag, v + s) == Some(Capture(v, s))
  {
    var t := (if b then "true" else "false") + s;
    if b {
      assert t[4..] == s;
    } else {
      assert t[0] == 'f' && "true"[0] == 't';
      assert t[5..] == s;
    }
  }

  lemma CaptureList(v: string, s: string)
    requires forall c :: c in v ==> c != ']' && !IsLineEnd(c)
    ensures MatchValue(List, ("[" + v + "]") + s) == Some(Capture(v, s))
  {
    UpToBracketOf(v, s);
    assert (("[" + v + "]") + s)[1..] == v + "]" + s;
  }

  lemma CaptureValue(l: Layout, t: Task, f: Field, s: string)
    requires ValidLayout(l) && Printable(t)
    ensures Printed(l, t, f) != "" && !IsSpace(Printed(l, t, f)[0])
    ensures MatchValue(KindOf(f), Printed(l, t, f) + s) == Some(Capture(Raw(l, t, f), s))
  {
    match KindOf(f)
    case Text =>
      RawText(l, t, f);
      CaptureText(Raw(l, t, f), s);
    case Flag =>
      CaptureFlag(t.enableGoogleSearch, s);
    case List =>
      DepsTextShape(l, t.dependsOn);
      CaptureList(Raw(l, t, f), s);
  }

  lemma SkipText(key: Field, v: string, s: string)
    requires NoQuote(v) && Break(s)
    ensures FindAll(Name(key), KindOf(key), Quoted(v) + s) == FindAll(Name(key), KindOf(key), s)
  {
    NameFacts(key);
    BreakEndsKey(KindOf(key), s);
    SkipQuoted(Name(key), KindOf(key), v, s);
  }

  lemma SkipFlag(key: Field, b: bool, s: string)
    ensures var v := if b then "true" else "false";
      FindAll(Name(key), KindOf(key), v + s) == FindAll(Name(key), KindOf(key), s)
  {
    SkipPlain(Name(key), KindOf(key), if b then "true" else "false", s);
  }

  lemma SkipList(key: Field, l: Layout, deps: seq<string>, s: string)
    requires ValidLayout(l) && forall d :: d in deps ==> PrintableId(d)
    ensures FindAll(Name(key), KindOf(key), ("[" + DepsText(l, deps) + "]") + s) == FindAll(Name(key), KindOf(key), s)
  {
    NameFacts(key);
    var inside := DepsText(l, deps) + ("]" + s);
    assert ("[" + DepsText(l, deps) + "]") + s == "[" + inside;
    SkipPlain(Name(key), KindOf(key), "[", inside);
    SkipDeps(Name(key), KindOf(key), l, deps, s);
  }

  lemma SkipValue(l: Layout, t: Task, f: Field, key: Field, s: string)
    requires ValidLayout(l) && Printable(t) && Break(s)
    ensures FindAll(Name(key), KindOf(key), Printed(l, t, f) + s) == FindAll(Name(key), KindOf(key), s)
  {
    match KindOf(f)
    case Text =>
      RawText(l, t, f);
      SkipText(key, Raw(l, t, f), s);
    case Flag =>
      SkipFlag(key, t.enableGoogleSearch, s);
    case List =>
      SkipList(key, l, t.dependsOn, s);
  }

  /** A printed field yields its value to its own pattern and nothing to any other. */
  lemma FieldStep(l: Layout, t: Task, f: Field, key: Field, s: string)
    requires ValidLayout(l) && Printable(t) && Break(s)
    ensures FindAll(Name(key), KindOf(key), Quoted(Name(f)) + (Colon(l) + (Printed(l, t, f) + s)))
         == Wanted(l, t, key, f) + FindAll(Name(key), KindOf(key), s)
  {
    NameFacts(f);
    NameFacts(key);
    var p := Printed(l, t, f) + s;
    CaptureValue(l, t, f, s);
    if f == key {
      AfterColon(l, KindOf(key), p);
      TakeField(Name(key), KindOf(key), Colon(l) + p);
    } else {
      NamesDiffer(f, key);
      AfterColon(l, KindOf(key), p);
      SkipQuoted(Name(key), KindOf(key), Name(f), Colon(l) + p);
      ColonPlain(l);
      SkipPlain(Name(key), KindOf(key), Colon(l), p);
      SkipValue(l, t, f, key, s);
    }
  }

  // ---------- one task ----------

  ghost function WantedAll(l: Layout, t: Task, key: Field, fs: seq<Field>): seq<string> {
    if fs == [] then [] else Wanted(l, t, key, fs[0]) + WantedAll(l, t, key, fs[1..])
  }

  lemma CommaBreaks(l: Layout, s: string)
    requires ValidLayout(l)
    ensures Break("," + l.gap + s) && NoQuote("," + l.gap)
  {
    SpacesPlain(l.gap);
    var c := "," + l.gap + s;
    assert c[0] == ',' && !IsSpace(',');
  }

  lemma FieldAndSeparator(l: Layout, t: Task, f: Field, key: Field, sep: string, rest: string)
    requires ValidLayout(l) && Printable(t) && Break(sep + rest) && NoQuote(sep)
    ensures FindAll(Name(key), KindOf(key), Quoted(Name(f)) + (Colon(l) + (Printed(l, t, f) + (sep + rest))))
         == Wanted(l, t, key, f) + FindAll(Name(key), KindOf(key), rest)
  {
    FieldStep(l, t, f, key, sep + rest);
    SkipPlain(Name(key), KindOf(key), sep, rest);
  }

  lemma {:induction false} FieldsFound(l: Layout, t: Task, fs: seq<Field>, key: Field, s: string)
    requires ValidLayout(l) && Printable(t) && Break(s)
    ensures FindAll(Name(key), KindOf(key), FieldsText(l, t, fs, s))
         == WantedAll(l, t, key, fs) + FindAll(Name(key), KindOf(key), s)
    decreases |fs|
  {
    if fs == [] {
    } else {
      var rest := FieldsText(l, t, fs[1..], s);
      if |fs| > 1 {
        CommaBreaks(l, rest);
        FieldAndSeparator(l, t, fs[0], key, "," + l.gap, rest);
      } else {
        assert rest == s && "" + rest == rest;
        FieldAndSeparator(l, t, fs[0], key, "", rest);
      }
      FieldsFound(l, t, fs[1..], key, s);
      FieldsFoundJoin(l, t, fs, key, s);
    }
  }

  lemma FieldsFoundJoin(l: Layout, t: Task, fs: seq<Field>, key: Field, s: string)
    requires fs != []
    ensures forall x: seq<string> :: Wanted(l, t, key, fs[0]) + (WantedAll(l, t, key, fs[1..]) + x) == WantedAll(l, t, key, fs) + x
  {
    forall x: seq<string>
      ensures Wanted(l, t, key, fs[0]) + (WantedAll(l, t, key, fs[1..]) + x) == WantedAll(l, t, key, fs) + x
    {
    }
  }

  lemma EveryFieldOnce(l: Layout, t: Task, key: Field)
    ensures WantedAll(l, t, key, AllFields()) == [Raw(l, t, key)]
  {
    var fs := AllFields();
    var w1, w2, w3 := fs[1..], fs[1..][1..], fs[1..][1..][1..];
    var w4 := w3[1..];
    var w5 := w4[1..];
    var w6 := w5[1..];
    assert w6[1..] == [];
    assert WantedAll(l, t, key, w6) == Wanted(l, t, key, Depends);
    assert WantedAll(l, t, key, w5) == Wanted(l, t, key, Search) + WantedAll(l, t, key, w6);
    assert WantedAll(l, t, key, w4) == Wanted(l, t, key, Prompt) + WantedAll(l, t, key, w5);
    assert WantedAll(l, t, key, w3) == Wanted(l, t, key, Objective) + WantedAll(l, t, key, w4);
    assert WantedAll(l, t, key, w2) == Wanted(l, t, key, AgentRole) + WantedAll(l, t, key, w3);
    assert WantedAll(l, t, key, w1) == Wanted(l, t, key, Description) + WantedAll(l, t, key, w2);
    assert WantedAll(l, t, key, fs) == Wanted(l, t, key, Id) + WantedAll(l, t, key, w1);
  }

  // ---------- the whole plan ----------

  ghost predicate AllBlank(tails: seq<Tail>) {
    forall t :: t in tails ==> t.Blank? && Spaces(t.space)
  }

  function Raws(l: Layout, ts: seq<Task>, f: Field): (r: seq<string>)
    ensures |r| == |ts| && forall i :: 0 <= i < |ts| ==> r[i] == Raw(l, ts[i], f)
  {
    if ts == [] then [] else [Raw(l, ts[0], f)] + Raws(l, ts[1..], f)
  }

  lemma BlankBreaks(w: string, s: string)
    requires Spaces(w)
    ensures Break(w + ("}" + s)) && NoQuote(w)
  {
    SpacesPlain(w);
    var u := "}" + s;
    assert u[0] == '}' && !IsSpace('}');
    TrimStartOf(w, u);
    if w != "" {
      assert w[0] in w;
    }
  }

  lemma TaskFound(l: Layout, t: Task, w: string, key: Field, sep: string, more: string)
    requires ValidLayout(l) && Printable(t) && Spaces(w) && NoQuote(sep)
    ensures FindAll(Name(key), KindOf(key), ("{" + l.gap) + FieldsText(l, t, AllFields(), w + ("}" + (sep + more))))
         == [Raw(l, t, key)] + FindAll(Name(key), KindOf(key), more)
  {
    var n, k := Name(key), KindOf(key);
    var close := w + ("}" + (sep + more));
    SpacesPlain(l.gap);
    SkipPlain(n, k, "{" + l.gap, FieldsText(l, t, AllFields(), close));
    BlankBreaks(w, sep + more);
    FieldsFound(l, t, AllFields(), key, close);
    EveryFieldOnce(l, t, key);
    SkipPlain(n, k, w, "}" + (sep + more));
    SkipPlain(n, k, "}", sep + more);
    SkipPlain(n, k, sep, more);
  }

  lemma FirstTaskFound(l: Layout, ts: seq<Task>, tails: seq<Tail>, key: Field, s: string)
    requires ValidLayout(l) && |tails| == |ts| && ts != []
    requires Printable(ts[0]) && tails[0].Blank? && Spaces(tails[0].space)
    ensures FindAll(Name(key), KindOf(key), TasksText(l, ts, tails, s))
         == [Raw(l, ts[0], key)] + FindAll(Name(key), KindOf(key), TasksText(l, ts[1..], tails[1..], s))
  {
    var sep := if |ts| > 1 then "," + l.gap else l.gap;
    SpacesPlain(l.gap);
    TaskFound(l, ts[0], tails[0].space, key, sep, TasksText(l, ts[1..], tails[1..], s));
  }

  lemma Prepend(h: string, b: seq<string>, x: seq<string>, rest: seq<string>, all: seq<string>)
    requires rest == b + x && all == [h] + rest
    ensures all == ([h] + b) + x
  {}

  lemma {:induction false} TasksFound(l: Layout, ts: seq<Task>, tails: seq<Tail>, key: Field, s: string)
    requires ValidLayout(l) && |tails| == |ts| && AllBlank(tails)
    requires forall t :: t in ts ==> Printable(t)
    ensures FindAll(Name(key), KindOf(key), TasksText(l, ts, tails, s))
         == Raws(l, ts, key) + FindAll(Name(key), KindOf(key), s)
    decreases |ts|
  {
    var x := FindAll(Name(key), KindOf(key), s);
    if ts == [] {
      assert TasksText(l, ts, tails, s) == s;
      assert Raws(l, ts, key) + x == x;
    } else {
      assert tails[0] in tails && ts[0] in ts;
      FirstTaskFound(l, ts, tails, key, s);
      TasksFound(l, ts[1..], tails[1..], key, s);
      Prepend(Raw(l, ts[0], key), Raws(l, ts[1..], key), x,
        FindAll(Name(key), KindOf(key), TasksText(l, ts[1..], tails[1..], s)),
        FindAll(Name(key), KindOf(key), TasksText(l, ts, tails, s)));
    }
  }

  /** Nothing is found in what a plan opens with. */
  lemma OpeningSkipped(l: Layout, key: Field, tasks: string)
    requires ValidLayout(l) && tasks != ""
    ensures FindAll(Name(key), KindOf(key), ("{" + l.gap) + (Quoted("subTasks") + ((Colon(l) + ("[" + l.gap)) + tasks)))
         == FindAll(Name(key), KindOf(key), tasks)
  {
    var n, k := Name(key), KindOf(key);
    var open := "[" + l.gap;
    var after := (Colon(l) + open) + tasks;
    NameFacts(key);
    SpacesPlain(l.gap);
    ColonPlain(l);
    SkipPlain(n, k, "{" + l.gap, Quoted("subTasks") + after);
    assert after == Colon(l) + (open + tasks);
    AfterColon(l, k, open + tasks);
    assert |n| == |"subTasks"| ==> false;
    SkipQuoted(n, k, "subTasks", after);
    SkipPlain(n, k, Colon(l) + open, tasks);
  }

  lemma NothingAtTheEnd(l: Layout, key: Field)
    requires ValidLayout(l)
    ensures FindAll(Name(key), KindOf(key), "]" + l.gap + "}") == []
  {
    var end := "]" + l.gap + "}";
    SpacesPlain(l.gap);
    assert end + "" == end;
    SkipPlain(Name(key), KindOf(key), end, "");
  }

  /** In a printed plan the occurrences of a field are the tasks' values, in order. */
  lemma PlanFound(l: Layout, ts: seq<Task>, tails: seq<Tail>, key: Field)
    requires ValidLayout(l) && |tails| == |ts| && AllBlank(tails)
    requires forall t :: t in ts ==> Printable(t)
    ensures Matches(PlanText(l, ts, tails), key) == Raws(l, ts, key)
  {
    var end := "]" + l.gap + "}";
    TasksEnd(l, ts, tails, end);
    OpeningSkipped(l, key, TasksText(l, ts, tails, end));
    TasksFound(l, ts, tails, key, end);
    NothingAtTheEnd(l, key);
    assert Raws(l, ts, key) + [] == Raws(l, ts, key);
  }

  // ---------- dependency lists ----------

  lemma {:induction false} FindQuotedPlain(o: string, s: string)
    requires NoQuote(o)
    ensures FindQuoted(o + s) == FindQuoted(s)
  {
    if o == "" {
      assert o + s == s;
    } else {
      assert o[0] in o;
      assert (o + s)[1..] == o[1..] + s;
      FindQuotedPlain(o[1..], s);
    }
  }

  lemma FindQuotedTake(v: string, s: string)
    requires NoQuote(v)
    ensures FindQuoted(Quoted(v) + s) == [v] + FindQuoted(s)
  {
    var t := Quoted(v) + s;
    UpToQuoteOf(v, s);
    assert t[1..] == v + "\"" + s;
  }

  lemma {:induction false} DependenciesQuoted(l: Layout, deps: seq<string>)
    requires ValidLayout(l) && forall d :: d in deps ==> PrintableId(d)
    ensures FindQuoted(DepsText(l, deps)) == deps
    decreases |deps|
  {
    if deps != [] {
      assert PrintableId(deps[0]);
      var sep := if |deps| > 1 then "," + l.listGap else "";
      var rest := DepsText(l, deps[1..]);
      SpacesPlain(l.listGap);
      assert DepsText(l, deps) == Quoted(deps[0]) + (sep + rest);
      FindQuotedTake(deps[0], sep + rest);
      FindQuotedPlain(sep, rest);
      DependenciesQuoted(l, deps[1..]);
    }
  }

  /** A printed dependency list is read back as it was. */
  lemma DependenciesReadBack(l: Layout, deps: seq<string>)
    requires ValidLayout(l) && forall d :: d in deps ==> PrintableId(d)
    ensures ReadDependencies(DepsText(l, deps)) == deps
  {
    DependenciesQuoted(l, deps);
  }

  // ---------- comments ----------

  lemma NotAComment(t: string)
    requires |t| > 1 ==> !(t[0] == '/' && t[1] == '/')
    ensures !StartsWith(t, "//")
  {
    assert "//" == ['/', '/'];
  }

  lemma StripOverOne(c: char, s: string)
    requires s != "" ==> !(c == '/' && s[0] == '/')
    ensures StripComments([c] + s) == [c] + StripComments(s)
  {
    NotAComment([c] + s);
    assert ([c] + s)[1..] == s;
  }

  lemma {:induction false} StripOver(a: string, s: string)
    requires NoComment(a)
    requires a != "" && s != "" ==> !(a[|a| - 1] == '/' && s[0] == '/')
    ensures StripComments(a + s) == a + StripComments(s)
    decreases |a|
  {
    if a == "" {
      assert a + s == s;
    } else {
      var c, b := a[0], a[1..];
      NoCommentTail(a);
      StripOver(b, s);
      StripOverOne(c, b + s);
      assert a + s == [c] + (b + s);
      assert [c] + (b + StripComments(s)) == a + StripComments(s);
    }
  }

  lemma NoCommentTail(a: string)
    requires NoComment(a) && a != ""
    ensures NoComment(a[1..])
  {
    var b := a[1..];
    forall i, j | 0 <= i < j < |b| && j == i + 1 ensures !(b[i] == '/' && b[j] == '/') {
      assert b[i] == a[i + 1] && b[j] == a[j + 1];
    }
  }

  lemma {:induction false} RestOfLineOf(c: string, s: string)
    requires forall x :: x in c ==> !IsLineEnd(x)
    ensures RestOfLine(c + ("\n" + s)) == "\n" + s
    decreases |c|
  {
    var t := c + ("\n" + s);
    if c == "" {
      assert t == "\n" + s;
    } else {
      assert c[0] in c;
      assert t[1..] == c[1..] + ("\n" + s);
      RestOfLineOf(c[1..], s);
    }
  }

  /** Text pieces that neither hold a comment nor can begin one with what follows. */
  ghost predicate Tidy(a: string) {
    NoComment(a) && (a != "" ==> a[|a| - 1] != '/')
  }

  lemma TidySpaces(w: string)
    requires Spaces(w)
    ensures Tidy(w)
  {
    assert !IsSpace('/');
    forall i | 0 <= i < |w| ensures w[i] != '/' {
      assert w[i] in w;
    }
  }

  lemma TidyConcat(a: string, b: string)
    requires Tidy(a) && Tidy(b)
    ensures Tidy(a + b)
  {
    var c := a + b;
    forall i, j | 0 <= i < j < |c| && j == i + 1 ensures !(c[i] == '/' && c[j] == '/') {
      if j < |a| {
        assert c[i] == a[i] && c[j] == a[j];
      } else if i >= |a| {
        assert c[i] == b[i - |a|] && c[j] == b[j - |a|];
      }
    }
  }

  lemma TidyQuoted(v: string)
    requires NoComment(v)
    ensures Tidy(Quoted(v))
  {
    var q := Quoted(v);
    forall i, j | 0 <= i < j < |q| && j == i + 1 ensures !(q[i] == '/' && q[j] == '/') {
      if 1 <= i && j <= |v| {
        assert q[i] == v[i - 1] && q[j] == v[j - 1];
      }
    }
  }

  lemma {:induction false} TidyDeps(l: Layout, deps: seq<string>)
    requires ValidLayout(l) && forall d :: d in deps ==> PrintableId(d)
    ensures Tidy(DepsText(l, deps))
    decreases |deps|
  {
    if deps != [] {
      assert PrintableId(deps[0]);
      TidyQuoted(deps[0]);
      TidySpaces(l.listGap);
      TidyConcat(",", l.listGap);
      var sep := if |deps| > 1 then "," + l.listGap else "";
      TidyConcat(Quoted(deps[0]), sep);
      TidyDeps(l, deps[1..]);
      TidyConcat(Quoted(deps[0]) + sep, DepsText(l, deps[1..]));
    }
  }

  lemma TidyPrinted(l: Layout, t: Task, f: Field)
    requires ValidLayout(l) && Printable(t)
    ensures Tidy(Printed(l, t, f))
  {
    match KindOf(f)
    case Text =>
      RawText(l, t, f);
      TidyQuoted(Raw(l, t, f));
    case Flag =>
      assert Raw(l, t, f) == "true" || Raw(l, t, f) == "false";
    case List =>
      TidyDeps(l, t.dependsOn);
      TidyConcat("[", Raw(l, t, f));
      TidyConcat("[" + Raw(l, t, f), "]");
  }

  lemma TidyColon(l: Layout)
    requires ValidLayout(l)
    ensures Tidy(Colon(l))
  {
    TidySpaces(l.beforeColon);
    TidySpaces(l.afterColon);
    TidyConcat(l.beforeColon, ":");
    TidyConcat(l.beforeColon + ":", l.afterColon);
  }

  lemma TidyName(f: Field)
    ensures NoComment(Name(f))
  {
    match f
    case Id => NoSlashNoComment("id");
    case Description => NoSlashNoComment("taskDescription");
    case AgentRole => NoSlashNoComment("agentRole");
    case Objective => NoSlashNoComment("agentObjective");
    case Prompt => NoSlashNoComment("agentTaskPrompt");
    case Search => NoSlashNoComment("enableGoogleSearch");
    case Depends => NoSlashNoComment("dependsOn");
  }

  lemma NoSlashNoComment(s: string)
    requires '/' !in s
    ensures NoComment(s)
  {
    assert forall i :: 0 <= i < |s| ==> s[i] in s;
  }

  lemma {:induction false} FieldsStripped(l: Layout, t: Task, fs: seq<Field>, s: string)
    requires ValidLayout(l) && Printable(t)
    ensures StripComments(FieldsText(l, t, fs, s)) == FieldsText(l, t, fs, StripComments(s))
    decreases |fs|
  {
    if fs != [] {
      var sep := if |fs| > 1 then "," + l.gap else "";
      var rest := FieldsText(l, t, fs[1..], s);
      var p := Printed(l, t, fs[0]);
      TidyName(fs[0]);
      TidyQuoted(Name(fs[0]));
      TidyColon(l);
      TidyPrinted(l, t, fs[0]);
      TidySpaces(l.gap);
      TidyConcat(",", l.gap);
      StripOver(Quoted(Name(fs[0])), Colon(l) + (p + (sep + rest)));
      StripOver(Colon(l), p + (sep + rest));
      StripOver(p, sep + rest);
      StripOver(sep, rest);
      FieldsStripped(l, t, fs[1..], s);
    }
  }

  lemma TailStripped(t: Tail, s: string)
    requires ValidTail(t)
    ensures StripComments(TailText(t) + s) == TailText(Uncommented(t)) + StripComments(s)
  {
    match t
    case Blank(w) =>
      TidySpaces(w);
      StripOver(w, s);
    case Commented(w, c, r) =>
      CommentedStripped(w, c, r, s);
      Reassociate(w, "//", c, "\n", r, s);
      assert w + (("\n" + r) + StripComments(s)) == (w + ("\n" + r)) + StripComments(s);
  }

  lemma Reassociate(a: string, b: string, c: string, d: string, e: string, s: string)
    ensures (a + (b + (c + (d + e)))) + s == a + (b + (c + (d + (e + s))))
  {}

  lemma CommentedStripped(w: string, c: string, r: string, s: string)
    requires Spaces(w) && Spaces(r) && forall x :: x in c ==> !IsLineEnd(x)
    ensures StripComments(w + ("//" + (c + ("\n" + (r + s))))) == w + (("\n" + r) + StripComments(s))
  {
    TidySpaces(w);
    StripOver(w, "//" + (c + ("\n" + (r + s))));
    CommentStripped(c, r + s);
    LineStart(r, s);
  }

  lemma LineStart(r: string, s: string)
    requires Spaces(r)
    ensures StripComments("\n" + (r + s)) == ("\n" + r) + StripComments(s)
  {
    var w := "\n" + r;
    assert IsSpace('\n');
    TidySpaces(w);
    assert "\n" + (r + s) == w + s;
    StripOver(w, s);
  }

  lemma CommentStripped(c: string, s: string)
    requires forall x :: x in c ==> !IsLineEnd(x)
    ensures StripComments("//" + (c + ("\n" + s))) == StripComments("\n" + s)
  {
    var t := "//" + (c + ("\n" + s));
    var d := "//" + c;
    assert t == d + ("\n" + s);
    assert t[..2] == "//";
    assert forall x :: x in d ==> x == '/' || x in c;
    RestOfLineOf(d, s);
  }

  function UncommentedAll(tails: seq<Tail>): (r: seq<Tail>)
    ensures |r| == |tails| && forall i :: 0 <= i < |tails| ==> r[i] == Uncommented(tails[i])
  {
    seq(|tails|, i requires 0 <= i < |tails| => Uncommented(tails[i]))
  }

  lemma TaskStripped(l: Layout, t: Task, tail: Tail, sep: string, more: string)
    requires ValidLayout(l) && Printable(t) && ValidTail(tail) && Tidy(sep)
    ensures StripComments(("{" + l.gap) + FieldsText(l, t, AllFields(), TailText(tail) + ("}" + (sep + more))))
         == ("{" + l.gap) + FieldsText(l, t, AllFields(), TailText(Uncommented(tail)) + ("}" + (sep + StripComments(more))))
  {
    var rest := "}" + (sep + more);
    TidySpaces(l.gap);
    TidyConcat("{", l.gap);
    StripOver("{" + l.gap, FieldsText(l, t, AllFields(), TailText(tail) + rest));
    FieldsStripped(l, t, AllFields(), TailText(tail) + rest);
    TailStripped(tail, rest);
    StripOver("}", sep + more);
    StripOver(sep, more);
  }

  lemma {:induction false} TasksStripped(l: Layout, ts: seq<Task>, tails: seq<Tail>, s: string)
    requires ValidLayout(l) && |tails| == |ts|
    requires (forall t :: t in ts ==> Printable(t)) && forall t :: t in tails ==> ValidTail(t)
    ensures StripComments(TasksText(l, ts, tails, s)) == TasksText(l, ts, UncommentedAll(tails), StripComments(s))
    decreases |ts|
  {
    if ts != [] {
      assert ts[0] in ts && tails[0] in tails;
      var sep := if |ts| > 1 then "," + l.gap else l.gap;
      TidySpaces(l.gap);
      TidyConcat(",", l.gap);
      TaskStripped(l, ts[0], tails[0], sep, TasksText(l, ts[1..], tails[1..], s));
      TasksStripped(l, ts[1..], tails[1..], s);
      assert UncommentedAll(tails)[1..] == UncommentedAll(tails[1..]);
    }
  }

  lemma OpeningStripped(l: Layout, tasks: string)
    requires ValidLayout(l)
    ensures StripComments(("{" + l.gap) + (Quoted("subTasks") + ((Colon(l) + ("[" + l.gap)) + tasks)))
         == ("{" + l.gap) + (Quoted("subTasks") + ((Colon(l) + ("[" + l.gap)) + StripComments(tasks)))
  {
    TidySpaces(l.gap);
    TidyConcat("{", l.gap);
    TidyConcat("[", l.gap);
    TidyColon(l);
    TidyConcat(Colon(l), "[" + l.gap);
    assert forall c :: c in "subTasks" ==> c != '/';
    TidyQuoted("subTasks");
    var open := Colon(l) + ("[" + l.gap);
    StripOver("{" + l.gap, Quoted("subTasks") + (open + tasks));
    StripOver(Quoted("subTasks"), open + tasks);
    StripOver(open, tasks);
  }

  /** Stripping removes exactly the trailing comments. */
  lemma PlanStripped(l: Layout, ts: seq<Task>, tails: seq<Tail>)
    requires ValidLayout(l) && |tails| == |ts|
    requires (forall t :: t in ts ==> Printable(t)) && forall t :: t in tails ==> ValidTail(t)
    ensures StripComments(PlanText(l, ts, tails)) == PlanText(l, ts, UncommentedAll(tails))
  {
    var end := "]" + l.gap + "}";
    OpeningStripped(l, TasksText(l, ts, tails, end));
    TasksStripped(l, ts, tails, end);
    TidySpaces(l.gap);
    TidyConcat("]", l.gap);
    TidyConcat("]" + l.gap, "}");
    StripIsIdentityIff(end);
  }

  // ---------- the round trip ----------

  lemma {:induction false} ContainsIn(a: string, p: string, b: string)
    ensures Contains(a + (p + b), p)
    decreases |a|
  {
    var t := a + (p + b);
    if a == "" {
      assert t == p + b;
    } else {
      assert t[1..] == a[1..] + (p + b);
      ContainsIn(a[1..], p, b);
    }
  }

  ghost predicate EndsLike(t: string, s: string) {
    t != "" && s != "" && t[|t| - 1] == s[|s| - 1]
  }

  lemma {:induction false} FieldsEnd(l: Layout, t: Task, fs: seq<Field>, s: string)
    requires s != ""
    ensures EndsLike(FieldsText(l, t, fs, s), s)
    decreases |fs|
  {
    if fs != [] {
      FieldsEnd(l, t, fs[1..], s);
    }
  }

  lemma {:induction false} TasksEnd(l: Layout, ts: seq<Task>, tails: seq<Tail>, s: string)
    requires |tails| == |ts| && s != ""
    ensures EndsLike(TasksText(l, ts, tails, s), s)
    decreases |ts|
  {
    if ts != [] {
      TasksEnd(l, ts[1..], tails[1..], s);
      var rest := (if |ts| > 1 then "," + l.gap else l.gap) + TasksText(l, ts[1..], tails[1..], s);
      FieldsEnd(l, ts[0], AllFields(), TailText(tails[0]) + ("}" + rest));
    }
  }

  lemma PlanInBraces(l: Layout, ts: seq<Task>, tails: seq<Tail>)
    requires |tails| == |ts|
    ensures Trim(PlanText(l, ts, tails)) == PlanText(l, ts, tails)
    ensures InBraces(PlanText(l, ts, tails)) == Some(PlanText(l, ts, tails))
  {
    var end := "]" + l.gap + "}";
    TasksEnd(l, ts, tails, end);
    var p := PlanText(l, ts, tails);
    assert p[0] == '{' && p[|p| - 1] == '}';
    assert !IsSpace('{') && !IsSpace('}');
  }

  lemma PlanMentionsSubTasks(l: Layout, ts: seq<Task>, tails: seq<Tail>)
    requires |tails| == |ts|
    ensures Contains(PlanText(l, ts, tails), "subTasks")
  {
    var rest := (Colon(l) + ("[" + l.gap)) + TasksText(l, ts, tails, "]" + l.gap + "}");
    ContainsIn("{" + l.gap + "\"", "subTasks", "\"" + rest);
    assert PlanText(l, ts, tails) == ("{" + l.gap + "\"") + ("subTasks" + ("\"" + rest));
  }

  /** Every field's occurrences in the text are the tasks' values. */
  ghost predicate AllFound(json: string, l: Layout, ts: seq<Task>) {
    forall f: Field :: Matches(json, f) == Raws(l, ts, f)
  }

  lemma TextReadBack(json: string, l: Layout, ts: seq<Task>, f: Field, i: nat)
    requires AllFound(json, l, ts) && i < |ts|
    ensures TextAt(json, f, i) == Raw(l, ts[i], f)
  {
    assert Matches(json, f) == Raws(l, ts, f);
  }

  lemma FlagAndListReadBack(json: string, l: Layout, ts: seq<Task>, i: nat)
    requires ValidLayout(l) && AllFound(json, l, ts) && i < |ts| && Printable(ts[i])
    ensures FlagAt(json, i) == ts[i].enableGoogleSearch
    ensures ListAt(json, i) == ts[i].dependsOn
  {
    assert Matches(json, Search) == Raws(l, ts, Search);
    assert Matches(json, Depends) == Raws(l, ts, Depends);
    DependenciesReadBack(l, ts[i].dependsOn);
    FlagReadBack(l, ts[i]);
  }

  lemma TaskReadBack(json: string, l: Layout, ts: seq<Task>, i: nat)
    requires ValidLayout(l) && AllFound(json, l, ts) && i < |ts| && Printable(ts[i])
    ensures TaskAt(json, i) == ts[i]
  {
    TextReadBack(json, l, ts, Id, i);
    TextReadBack(json, l, ts, Description, i);
    TextReadBack(json, l, ts, AgentRole, i);
    TextReadBack(json, l, ts, Objective, i);
    TextReadBack(json, l, ts, Prompt, i);
    FlagAndListReadBack(json, l, ts, i);
  }

  lemma FlagReadBack(l: Layout, t: Task)
    ensures (Raw(l, t, Search) == "true") == t.enableGoogleSearch
  {
    assert |"true"| != |"false"|;
  }

  lemma BlankPlanReadsBack(l: Layout, ts: seq<Task>, tails: seq<Tail>)
    requires ValidLayout(l) && |tails| == |ts| && AllBlank(tails)
    requires forall t :: t in ts ==> Printable(t)
    ensures PlanOf(PlanText(l, ts, tails)) == ts
  {
    var json := PlanText(l, ts, tails);
    PlanMentionsSubTasks(l, ts, tails);
    forall f: Field ensures Matches(json, f) == Raws(l, ts, f) {
      PlanFound(l, ts, tails, f);
    }
    FoundPlanReadsBack(json, l, ts);
  }

  lemma FoundPlanReadsBack(json: string, l: Layout, ts: seq<Task>)
    requires ValidLayout(l) && AllFound(json, l, ts) && Contains(json, "subTasks")
    requires forall t :: t in ts ==> Printable(t)
    ensures PlanOf(json) == ts
  {
    assert Matches(json, Id) == Raws(l, ts, Id);
    forall i | 0 <= i < |ts| ensures TaskAt(json, i) == ts[i] {
      TaskReadBack(json, l, ts, i);
    }
  }

  /** Round trip of the text between the fences: printing a plan in the prompted format, with any
      whitespace and with comments after any task, and reading it gives the same plan. */
  lemma PrintedBodyReadsBack(l: Layout, ts: seq<Task>, tails: seq<Tail>)
    requires ValidLayout(l) && |tails| == |ts|
    requires (forall t :: t in ts ==> Printable(t)) && forall t :: t in tails ==> ValidTail(t)
    ensures PlanInBody(PlanText(l, ts, tails)) == ts
  {
    var blank := UncommentedAll(tails);
    PlanInBraces(l, ts, tails);
    PlanStripped(l, ts, tails);
    PlanInBraces(l, ts, blank);
    UncommentedIsBlank(tails);
    BlankPlanReadsBack(l, ts, blank);
  }

  lemma UncommentedIsBlank(tails: seq<Tail>)
    requires forall t :: t in tails ==> ValidTail(t)
    ensures AllBlank(UncommentedAll(tails))
  {
    assert IsSpace('\n');
    forall i | 0 <= i < |tails|
      ensures Uncommented(tails[i]).Blank? && Spaces(Uncommented(tails[i]).space)
    {
      assert ValidTail(tails[i]);
    }
  }
}
