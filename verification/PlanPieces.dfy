/**
 Everything read from a text is a piece of it, or one of the defaults that stand in for a missing
 field. So whatever a text does not hold, the plan read from it does not hold either.
 */
module PlanPieces {
  import opened Common
  import opened Plan
  import opened Regexes
  import opened PlanParser

  /** `v` occurs in `s`. */
  ghost predicate Piece(v: string, s: string) {
    exists i, j :: 0 <= i <= j <= |s| && v == s[i..j]
  }

  ghost predicate Suffix(t: string, s: string) {
    |t| <= |s| && t == s[|s| - |t|..]
  }

  /** Everything but the last character. */
  function Body(s: string): string {
    if s == "" then "" else s[..|s| - 1]
  }

  lemma PieceAt(s: string, i: nat, j: nat)
    requires i <= j <= |s|
    ensures Piece(s[i..j], s)
  {}

  lemma PieceInside(u: string, v: string, s: string)
    requires Piece(u, v) && Piece(v, s)
    ensures Piece(u, s)
  {
    var i, j :| 0 <= i <= j <= |v| && u == v[i..j];
    var k, l :| 0 <= k <= l <= |s| && v == s[k..l];
    SliceOfSlice(s, k, l, i, j);
    PieceAt(s, k + i, k + j);
  }

  lemma SliceOfSlice(s: string, k: nat, l: nat, i: nat, j: nat)
    requires k <= l <= |s| && i <= j <= l - k
    ensures s[k..l][i..j] == s[k + i..k + j]
  {
    var a, b := s[k..l][i..j], s[k + i..k + j];
    assert |a| == |b|;
    assert forall m :: 0 <= m < j - i ==> a[m] == s[k..l][i + m] == s[k + i + m] == b[m];
  }

  lemma SuffixTrans(u: string, t: string, s: string)
    requires Suffix(u, t) && Suffix(t, s)
    ensures Suffix(u, s)
  {}

  lemma SuffixBody(t: string, s: string)
    requires Suffix(t, s)
    ensures Piece(Body(t), Body(s))
  {
    var k := |s| - |t|;
    if t == "" {
      PieceAt(Body(s), 0, 0);
    } else {
      assert Body(t) == Body(s)[k..|s| - 1];
      PieceAt(Body(s), k, |s| - 1);
    }
  }

  lemma PieceWider(v: string, t: string, s: string)
    requires Suffix(t, s) && Piece(v, Body(t))
    ensures Piece(v, Body(s))
  {
    SuffixBody(t, s);
    PieceInside(v, Body(t), Body(s));
  }

  // ---------- captures ----------

  lemma {:induction false} TrimStartSuffix(s: string)
    ensures Suffix(TrimStart(s), s)
  {
    if s != "" && IsSpace(s[0]) {
      TrimStartSuffix(s[1..]);
    }
  }

  lemma {:induction false} UpToQuoteParts(s: string)
    requires UpToQuote(s).Some?
    ensures var c := UpToQuote(s).value;
      |c.value| < |s| && c.value == s[..|c.value|] && c.rest == s[|c.value| + 1..] && NoQuote(c.value)
  {
    if s[0] != '"' {
      UpToQuoteParts(s[1..]);
    }
  }

  lemma {:induction false} UpToBracketParts(s: string)
    requires UpToBracket(s).Some?
    ensures var c := UpToBracket(s).value;
      |c.value| < |s| && c.value == s[..|c.value|] && c.rest == s[|c.value| + 1..] && Listable(c.value)
  {
    if s[0] != ']' {
      UpToBracketParts(s[1..]);
    }
  }

  /** A capture ends before the last character, and the search goes on behind it. */
  ghost predicate InText(c: Option<Capture>, kind: Kind, s: string) {
    c.Some? ==>
      && Suffix(c.value.rest, s) && Piece(c.value.value, Body(s))
      && (kind == Text ==> NoQuote(c.value.value))
      && (kind == List ==> Listable(c.value.value))
  }

  lemma UpToQuoteInText(s: string)
    ensures InText(UpToQuote(s), Text, s)
  {
    if UpToQuote(s).Some? {
      UpToQuoteParts(s);
      var c := UpToQuote(s).value;
      assert c.value == Body(s)[0..|c.value|];
    }
  }

  lemma UpToBracketInText(s: string)
    ensures InText(UpToBracket(s), List, s)
  {
    if UpToBracket(s).Some? {
      UpToBracketParts(s);
      var c := UpToBracket(s).value;
      assert c.value == Body(s)[0..|c.value|];
    }
  }

  lemma InTextWider(c: Option<Capture>, kind: Kind, t: string, s: string)
    requires InText(c, kind, t) && Suffix(t, s)
    ensures InText(c, kind, s)
  {
    if c.Some? {
      SuffixTrans(c.value.rest, t, s);
      PieceWider(c.value.value, t, s);
    }
  }

  lemma ValueInText(kind: Kind, s: string)
    requires kind != Flag
    ensures InText(MatchValue(kind, s), kind, s)
  {
    if s != "" {
      UpToQuoteInText(s[1..]);
      UpToBracketInText(s[1..]);
      InTextWider(UpToQuote(s[1..]), Text, s[1..], s);
      InTextWider(UpToBracket(s[1..]), List, s[1..], s);
    }
  }

  lemma FieldInText(key: string, kind: Kind, s: string)
    requires kind != Flag
    ensures InText(MatchField(key, kind, s), kind, s)
  {
    if StartsWith(s, Quoted(key)) {
      var u := s[|key| + 2..];
      TrimStartSuffix(u);
      var t := TrimStart(u);
      if t != "" && t[0] == ':' {
        TrimStartSuffix(t[1..]);
        var v := TrimStart(t[1..]);
        SuffixTrans(v, t[1..], t);
        SuffixTrans(v, t, u);
        SuffixTrans(v, u, s);
        ValueInText(kind, v);
        InTextWider(MatchValue(kind, v), kind, v, s);
      }
    }
  }

  lemma {:induction false} FindAllInText(key: string, kind: Kind, s: string)
    requires kind != Flag
    ensures forall v :: v in FindAll(key, kind, s) ==>
      Piece(v, Body(s)) && (kind == Text ==> NoQuote(v)) && (kind == List ==> Listable(v))
    decreases |s|
  {
    if s != "" {
      FieldInText(key, kind, s);
      MatchShrinks(key, kind, s);
      var m := MatchField(key, kind, s);
      var rest := if m.Some? then m.value.rest else s[1..];
      FindAllInText(key, kind, rest);
      forall v | v in FindAll(key, kind, rest) ensures Piece(v, Body(s)) {
        PieceWider(v, rest, s);
      }
    }
  }

  lemma {:induction false} FindQuotedPieces(s: string)
    ensures forall v :: v in FindQuoted(s) ==> Piece(v, s)
    decreases |s|
  {
    if s != "" {
      var q := UpToQuote(s[1..]);
      var rest := if s[0] == '"' && q.Some? then q.value.rest else s[1..];
      if s[0] == '"' && q.Some? {
        UpToQuoteParts(s[1..]);
        assert q.value.value == s[1..1 + |q.value.value|];
      }
      FindQuotedPieces(rest);
      PieceAt(s, |s| - |rest|, |s|);
      forall v | v in FindQuoted(rest) ensures Piece(v, s) {
        PieceInside(v, rest, s);
      }
    }
  }

  lemma {:induction false} WordsPieces(s: string, word: string)
    ensures forall v :: v in Words(s, word) ==> Piece(v, word + s)
    decreases |s|
  {
    var all := word + s;
    assert word == all[0..|word|];
    if s != "" {
      if IsSpace(s[0]) {
        WordsPieces(s[1..], "");
        assert "" + s[1..] == all[|word| + 1..|all|];
        forall v | v in Words(s[1..], "") ensures Piece(v, all) {
          PieceInside(v, "" + s[1..], all);
        }
      } else {
        assert all == (word + [s[0]]) + s[1..];
        WordsPieces(s[1..], word + [s[0]]);
      }
    }
  }

  // ---------- tasks ----------

  /** Text without the characters that the reader treats specially. */
  predicate Plain(v: string) {
    NoQuote(v) && '`' !in v && '/' !in v && '}' !in v
  }

  lemma {:induction false} DecimalPlain(n: nat)
    ensures Plain(Decimal(n))
  {
    if n >= 10 {
      DecimalPlain(n / 10);
      DecimalPlain(n % 10);
    }
  }

  lemma DefaultPlain(f: Field, i: nat)
    ensures Plain(Default(f, i))
  {
    match f
    case Description => NumberedPlain("Tarefa ", i + 1);
    case AgentRole => DefaultRolePlain();
    case Objective => DefaultObjectivePlain();
    case Prompt =>
      assert Default(Prompt, i) == Default(Prompt, 0);
      DefaultPromptPlain();
    case _ => NumberedPlain("task", i + 1);
  }

  lemma DefaultRolePlain()
    ensures Plain("Agente Especialista")
  {}

  lemma DefaultObjectivePlain()
    ensures Plain("Executar a tarefa designada")
  {}

  lemma DefaultPromptPlain()
    ensures Plain(Default(Prompt, 0))
  {
    PromptUnquoted();
    PromptUnmarked();
  }

  lemma PromptUnquoted()
    ensures NoQuote(Default(Prompt, 0)) && '`' !in Default(Prompt, 0)
  {}

  lemma PromptUnmarked()
    ensures '/' !in Default(Prompt, 0) && '}' !in Default(Prompt, 0)
  {}

  lemma NumberedPlain(name: string, n: nat)
    requires Plain(name)
    ensures Plain(name + Decimal(n))
  {
    DecimalPlain(n);
  }

  ghost predicate From(v: string, json: string) {
    NoQuote(v) && (Piece(v, Body(json)) || Plain(v))
  }

  ghost predicate TaskFrom(t: Task, json: string) {
    && From(t.id, json) && From(t.taskDescription, json) && From(t.agentRole, json)
    && From(t.agentObjective, json) && From(t.agentTaskPrompt, json)
    && forall d :: d in t.dependsOn ==> Piece(d, Body(json)) && Listable(d)
  }

  lemma TextFrom(json: string, f: Field, i: nat)
    requires KindOf(f) == Text
    ensures From(TextAt(json, f, i), json)
  {
    FindAllInText(Name(f), KindOf(f), json);
    DefaultPlain(f, i);
  }

  lemma ListableInside(d: string, v: string)
    requires Piece(d, v) && Listable(v)
    ensures Listable(d)
  {
    var i, j :| 0 <= i <= j <= |v| && d == v[i..j];
    forall c | c in d ensures c != ']' && !IsLineEnd(c) {
      assert c in v;
    }
  }

  lemma ListFrom(json: string, i: nat)
    ensures forall d :: d in ListAt(json, i) ==> Piece(d, Body(json)) && Listable(d)
  {
    var ms := Matches(json, Depends);
    FindAllInText(Name(Depends), List, json);
    if i < |ms| {
      assert ms[i] in ms;
      FindQuotedPieces(ms[i]);
      assert "" + ms[i] == ms[i];
      WordsPieces(ms[i], "");
      forall d | d in ListAt(json, i) ensures Piece(d, Body(json)) && Listable(d) {
        PieceInside(d, ms[i], Body(json));
        ListableInside(d, ms[i]);
      }
    }
  }

  /** Every text and id of a plan read from `json` is part of it, without its last character, or
      a default; texts hold no quote, ids no closing bracket and no line end. */
  lemma PlanFrom(json: string, t: Task)
    requires t in PlanOf(json)
    ensures TaskFrom(t, json)
  {
    var i :| 0 <= i < |PlanOf(json)| && PlanOf(json)[i] == t;
    TextFrom(json, Id, i);
    TextFrom(json, Description, i);
    TextFrom(json, AgentRole, i);
    TextFrom(json, Objective, i);
    TextFrom(json, Prompt, i);
    ListFrom(json, i);
  }
}
