/**
 A plan answered as proper JSON: characters that JSON requires to be escaped are escaped. The
 reader knows no escapes, so this decides which plans come back.
 */
module JsonPlans {
  import opened Common
  import opened Plan
  import opened Fences
  import opened Regexes
  import opened PlanParser
  import opened PlanRoundTrip
  import opened PlanPieces
  import opened FencedPlans

  type Escape = char -> string

  /** Quotes, backslashes and control characters. */
  predicate MustEscape(c: char) {
    c == '"' || c == '\\' || c < ' '
  }

  predicate Literal(v: string) {
    forall c :: c in v ==> !MustEscape(c)
  }

  predicate LiteralTask(t: Task) {
    && Literal(t.id) && Literal(t.taskDescription) && Literal(t.agentRole)
    && Literal(t.agentObjective) && Literal(t.agentTaskPrompt)
    && forall d :: d in t.dependsOn ==> Literal(d)
  }

  /** A backslash and at least one more character; a quote only when the quote itself is escaped
      by one. Other characters stand for themselves. */
  ghost predicate IsJsonEscape(e: Escape) {
    forall c :: if MustEscape(c) then Sequence(c, e(c)) else e(c) == [c]
  }

  predicate Sequence(c: char, q: string) {
    && |q| >= 2 && q[0] == '\\'
    && (forall x :: x in q ==> x != '`' && x != '/' && x != ']' && !IsLineEnd(x))
    && ('"' in q ==> c == '"')
  }

  function Escaped(e: Escape, v: string): string {
    if v == "" then "" else e(v[0]) + Escaped(e, v[1..])
  }

  function EscapedIds(e: Escape, ds: seq<string>): (r: seq<string>)
    ensures |r| == |ds| && forall i :: 0 <= i < |ds| ==> r[i] == Escaped(e, ds[i])
  {
    seq(|ds|, i requires 0 <= i < |ds| => Escaped(e, ds[i]))
  }

  function EscapedTask(e: Escape, t: Task): Task {
    Task(Escaped(e, t.id), Escaped(e, t.taskDescription), Escaped(e, t.agentRole), Escaped(e, t.agentObjective),
         Escaped(e, t.agentTaskPrompt), t.enableGoogleSearch, EscapedIds(e, t.dependsOn))
  }

  function EscapedPlan(e: Escape, ts: seq<Task>): (r: seq<Task>)
    ensures |r| == |ts| && forall i :: 0 <= i < |ts| ==> r[i] == EscapedTask(e, ts[i])
  {
    seq(|ts|, i requires 0 <= i < |ts| => EscapedTask(e, ts[i]))
  }

  // ---------- one text ----------

  /** Escaping changes a text exactly when there is something to escape: it grows. */
  lemma {:induction false} EscapedIsSameIff(e: Escape, v: string)
    requires IsJsonEscape(e)
    ensures |Escaped(e, v)| >= |v|
    ensures Escaped(e, v) == v <==> Literal(v)
    ensures |Escaped(e, v)| == |v| ==> Literal(v)
  {
    if v != "" {
      EscapedIsSameIff(e, v[1..]);
      assert v == [v[0]] + v[1..];
      assert MustEscape(v[0]) ==> Sequence(v[0], e(v[0]));
    }
  }

  lemma {:induction false} EscapedKeepsChars(e: Escape, v: string)
    requires IsJsonEscape(e)
    ensures NoQuote(v) ==> NoQuote(Escaped(e, v))
    ensures Listable(v) ==> Listable(Escaped(e, v))
  {
    if v != "" {
      EscapedKeepsChars(e, v[1..]);
      assert v == [v[0]] + v[1..];
      var q, r := e(v[0]), Escaped(e, v[1..]);
      assert if MustEscape(v[0]) then Sequence(v[0], q) else q == [v[0]];
      assert v[0] in v && forall x :: x in v[1..] ==> x in v;
      if NoQuote(v) {
        assert NoQuote(v[1..]) && '"' !in q && '"' !in r;
      }
      if Listable(v) {
        assert Listable(v[1..]) && Listable(q) && Listable(r);
      }
    }
  }

  lemma {:induction false} EscapedKeepsNoFence(e: Escape, v: string)
    requires IsJsonEscape(e) && NoFence(v)
    ensures NoFence(Escaped(e, v)) && BackticksKept(v, Escaped(e, v))
  {
    if v != "" {
      var q, r := e(v[0]), Escaped(e, v[1..]);
      NoFenceTail(v);
      EscapedKeepsNoFence(e, v[1..]);
      if MustEscape(v[0]) {
        assert Sequence(v[0], q);
        PlainIsSmooth(q);
        FenceAfterSmooth(q, r);
      } else {
        assert q == [v[0]];
        StartsWithFence(v);
        StartsWithFence(q + r);
        NoFenceTail(q + r);
        assert (q + r)[1..] == r;
      }
    }
  }

  lemma NoSlashBefore(q: string, r: string)
    requires '/' !in q && NoComment(r)
    ensures NoComment(q + r)
  {
    var t := q + r;
    forall i, j | 0 <= i < j < |t| && j == i + 1 ensures !(t[i] == '/' && t[j] == '/') {
      if i < |q| {
        assert t[i] == q[i] && q[i] in q;
      } else {
        assert t[i] == r[i - |q|] && t[j] == r[j - |q|];
      }
    }
  }

  lemma {:induction false} EscapedKeepsNoComment(e: Escape, v: string)
    requires IsJsonEscape(e) && NoComment(v)
    ensures NoComment(Escaped(e, v))
    ensures Escaped(e, v) != "" && Escaped(e, v)[0] == '/' ==> v != "" && v[0] == '/'
  {
    if v != "" {
      var q, r := e(v[0]), Escaped(e, v[1..]);
      NoCommentTail(v);
      EscapedKeepsNoComment(e, v[1..]);
      if MustEscape(v[0]) {
        assert Sequence(v[0], q);
        NoSlashBefore(q, r);
      } else {
        assert q == [v[0]];
        NoCommentCons(v[0], r);
      }
    }
  }

  lemma TextKept(e: Escape, v: string)
    requires IsJsonEscape(e)
    ensures NoQuote(v) ==> NoQuote(Escaped(e, v))
    ensures NoFence(v) ==> NoFence(Escaped(e, v))
    ensures NoComment(v) ==> NoComment(Escaped(e, v))
    ensures Listable(v) ==> Listable(Escaped(e, v))
    ensures Escaped(e, v) == v <==> Literal(v)
  {
    EscapedIsSameIff(e, v);
    EscapedKeepsChars(e, v);
    if NoFence(v) {
      EscapedKeepsNoFence(e, v);
    }
    if NoComment(v) {
      EscapedKeepsNoComment(e, v);
    }
  }

  // ---------- a plan ----------

  lemma TaskKept(e: Escape, t: Task)
    requires IsJsonEscape(e)
    ensures Quotable(t) ==> Quotable(EscapedTask(e, t))
    ensures Survives(t) ==> Survives(EscapedTask(e, t))
    ensures EscapedTask(e, t) == t <==> LiteralTask(t)
  {
    TextKept(e, t.id);
    TextKept(e, t.taskDescription);
    TextKept(e, t.agentRole);
    TextKept(e, t.agentObjective);
    TextKept(e, t.agentTaskPrompt);
    IdsKept(e, t.dependsOn);
  }

  lemma IdsKept(e: Escape, ds: seq<string>)
    requires IsJsonEscape(e)
    ensures (forall d :: d in ds ==> NoQuote(d)) ==> forall d :: d in EscapedIds(e, ds) ==> NoQuote(d)
    ensures (forall d :: d in ds ==> NoFence(d)) ==> forall d :: d in EscapedIds(e, ds) ==> NoFence(d)
    ensures (forall d :: d in ds ==> NoComment(d)) ==> forall d :: d in EscapedIds(e, ds) ==> NoComment(d)
    ensures (forall d :: d in ds ==> Listable(d)) ==> forall d :: d in EscapedIds(e, ds) ==> Listable(d)
    ensures EscapedIds(e, ds) == ds <==> forall d :: d in ds ==> Literal(d)
  {
    forall i | 0 <= i < |ds|
      ensures (NoQuote(ds[i]) ==> NoQuote(EscapedIds(e, ds)[i])) && (NoFence(ds[i]) ==> NoFence(EscapedIds(e, ds)[i]))
      ensures (NoComment(ds[i]) ==> NoComment(EscapedIds(e, ds)[i])) && (Listable(ds[i]) ==> Listable(EscapedIds(e, ds)[i]))
      ensures EscapedIds(e, ds)[i] == ds[i] <==> Literal(ds[i])
    {
      TextKept(e, ds[i]);
    }
  }

  lemma PlanKept(e: Escape, ts: seq<Task>)
    requires IsJsonEscape(e)
    ensures (forall t :: t in ts ==> Quotable(t)) ==> forall t :: t in EscapedPlan(e, ts) ==> Quotable(t)
    ensures AllSurvive(ts) ==> AllSurvive(EscapedPlan(e, ts))
    ensures EscapedPlan(e, ts) == ts <==> forall t :: t in ts ==> LiteralTask(t)
  {
    forall i | 0 <= i < |ts|
      ensures (Quotable(ts[i]) ==> Quotable(EscapedPlan(e, ts)[i])) && (Survives(ts[i]) ==> Survives(EscapedPlan(e, ts)[i]))
      ensures EscapedPlan(e, ts)[i] == ts[i] <==> LiteralTask(ts[i])
    {
      TaskKept(e, ts[i]);
    }
  }

  // ---------- the round trip ----------

  predicate QuotableTexts(t: Task) {
    && NoQuote(t.id) && NoQuote(t.taskDescription) && NoQuote(t.agentRole)
    && NoQuote(t.agentObjective) && NoQuote(t.agentTaskPrompt)
  }

  predicate QuotableIds(t: Task) {
    forall d :: d in t.dependsOn ==> NoQuote(d)
  }

  /** Whatever the answer: no text read from it holds a quote. */
  lemma ReadTextsQuotable(answer: string, t: Task)
    requires t in PlanInAnswer(answer)
    ensures QuotableTexts(t)
  {
    var json := InBraces(StripComments(Trim(RemoveFences(FindBlock(answer).value)))).value;
    PlanFrom(json, t);
  }

  /** A plan printed as JSON in a fence is read back exactly when its texts and ids survive as
      above and hold nothing that JSON escapes: escaped quotes end a text early, and every other
      escape is read as the characters it is written with. */
  lemma JsonPlanReadsBackIff(e: Escape, before: string, w1: string, l: Layout, ts: seq<Task>, tails: seq<Tail>,
                             w2: string, after: string)
    requires IsJsonEscape(e) && forall t :: t in ts ==> QuotableIds(t)
    requires !Contains(before, JSON_FENCE) && Spaces(w1) && Spaces(w2)
    requires ValidLayout(l) && |tails| == |ts|
    requires forall t :: t in tails ==> ValidTail(t) && PlainComment(t)
    ensures PlanInAnswer(Answer(before, w1, PlanText(l, EscapedPlan(e, ts), tails), w2, after)) == ts
       <==> AllSurvive(ts) && forall t :: t in ts ==> LiteralTask(t)
  {
    var escaped := EscapedPlan(e, ts);
    var answer := Answer(before, w1, PlanText(l, escaped, tails), w2, after);
    PlanKept(e, ts);
    if PlanInAnswer(answer) == ts {
      AnswerTextsSurvive(answer);
      forall t | t in ts ensures Quotable(t) {
        ReadTextsQuotable(answer, t);
      }
      FencedPlanReadsBackIff(before, w1, l, escaped, tails, w2, after);
    } else if AllSurvive(ts) && forall t :: t in ts ==> LiteralTask(t) {
      FencedPlanReadsBackIff(before, w1, l, escaped, tails, w2, after);
    }
  }
}
