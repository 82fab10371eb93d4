/**
 A printed plan inside a model's answer: in a json fence with prose around it, and bare. The
 fences decide what is read back, and so do fences inside the plan's own texts.
 */
module FencedPlans {
  import opened Common
  import opened Plan
  import opened Fences
  import opened Regexes
  import opened PlanParser
  import opened PlanRoundTrip
  import opened PlanPieces

  /** No text of the task holds three backticks. */
  predicate FenceFree(t: Task) {
    && NoFence(t.id) && NoFence(t.taskDescription) && NoFence(t.agentRole)
    && NoFence(t.agentObjective) && NoFence(t.agentTaskPrompt)
    && forall d :: d in t.dependsOn ==> NoFence(d)
  }

  predicate AllFenceFree(ts: seq<Task>) {
    forall t :: t in ts ==> FenceFree(t)
  }

  ghost predicate PlainComment(t: Tail) {
    t.Commented? ==> NoFence(t.comment)
  }

  // ---------- a printed plan of such tasks holds no fence ----------

  lemma {:induction false} NoFenceConcat(a: string, b: string)
    requires NoFence(a) && NoFence(b) && (b != "" ==> b[0] != '`')
    ensures NoFence(a + b)
    decreases |a|
  {
    var c := a + b;
    if a == "" {
      assert c == b;
    } else {
      assert c[1..] == a[1..] + b;
      NoFenceTail(a);
      NoFenceConcat(a[1..], b);
      StartsWithFence(a);
      StartsWithFence(c);
      NoFenceTail(c);
    }
  }

  lemma SpacesSmooth(w: string)
    requires Spaces(w)
    ensures Smooth(w)
  {
    assert !IsSpace('`');
    PlainIsSmooth(w);
  }

  lemma QuotedSmooth(v: string)
    requires NoFence(v)
    ensures Smooth(Quoted(v))
  {
    PlainIsSmooth("\"");
    NoFenceConcat(v, "\"");
    SmoothConcat("\"", v + "\"");
    assert Quoted(v) == "\"" + (v + "\"");
  }

  lemma {:induction false} DepsSmooth(l: Layout, deps: seq<string>)
    requires ValidLayout(l) && forall d :: d in deps ==> NoFence(d)
    ensures Smooth(DepsText(l, deps))
    decreases |deps|
  {
    if deps == [] {
      PlainIsSmooth("");
    } else {
      QuotedSmooth(deps[0]);
      SeparatorSmooth(l.listGap, |deps| > 1);
      var sep := if |deps| > 1 then "," + l.listGap else "";
      SmoothConcat(Quoted(deps[0]), sep);
      DepsSmooth(l, deps[1..]);
      SmoothConcat(Quoted(deps[0]) + sep, DepsText(l, deps[1..]));
    }
  }

  lemma SeparatorSmooth(gap: string, more: bool)
    requires Spaces(gap)
    ensures Smooth(if more then "," + gap else "")
  {
    PlainIsSmooth("");
    PlainIsSmooth(",");
    SpacesSmooth(gap);
    SmoothConcat(",", gap);
  }

  lemma PrintedSmooth(l: Layout, t: Task, f: Field)
    requires ValidLayout(l) && FenceFree(t)
    ensures Smooth(Printed(l, t, f))
  {
    match KindOf(f)
    case Text =>
      QuotedSmooth(Raw(l, t, f));
    case Flag =>
      PlainIsSmooth("true");
      PlainIsSmooth("false");
    case List =>
      DepsSmooth(l, t.dependsOn);
      PlainIsSmooth("[");
      PlainIsSmooth("]");
      SmoothConcat("[", Raw(l, t, f));
      SmoothConcat("[" + Raw(l, t, f), "]");
  }

  lemma ColonSmooth(l: Layout)
    requires ValidLayout(l)
    ensures Smooth(Colon(l))
  {
    SpacesSmooth(l.beforeColon);
    SpacesSmooth(l.afterColon);
    PlainIsSmooth(":");
    SmoothConcat(l.beforeColon, ":");
    SmoothConcat(l.beforeColon + ":", l.afterColon);
  }

  lemma NameSmooth(f: Field)
    ensures NoFence(Name(f))
  {
    match f
    case Id => PlainIsSmooth("id");
    case Description => PlainIsSmooth("taskDescription");
    case AgentRole => PlainIsSmooth("agentRole");
    case Objective => PlainIsSmooth("agentObjective");
    case Prompt => PlainIsSmooth("agentTaskPrompt");
    case Search => PlainIsSmooth("enableGoogleSearch");
    case Depends => PlainIsSmooth("dependsOn");
  }

  lemma {:induction false} FieldsSmooth(l: Layout, t: Task, fs: seq<Field>, s: string)
    requires ValidLayout(l) && FenceFree(t) && Smooth(s)
    ensures Smooth(FieldsText(l, t, fs, s))
    decreases |fs|
  {
    if fs != [] {
      var sep := if |fs| > 1 then "," + l.gap else "";
      var rest := FieldsText(l, t, fs[1..], s);
      FieldsSmooth(l, t, fs[1..], s);
      SeparatorSmooth(l.gap, |fs| > 1);
      SmoothConcat(sep, rest);
      PrintedSmooth(l, t, fs[0]);
      SmoothConcat(Printed(l, t, fs[0]), sep + rest);
      ColonSmooth(l);
      SmoothConcat(Colon(l), Printed(l, t, fs[0]) + (sep + rest));
      NameSmooth(fs[0]);
      QuotedSmooth(Name(fs[0]));
      SmoothConcat(Quoted(Name(fs[0])), Colon(l) + (Printed(l, t, fs[0]) + (sep + rest)));
    }
  }

  lemma TailSmooth(t: Tail)
    requires ValidTail(t) && PlainComment(t)
    ensures Smooth(TailText(t))
  {
    match t
    case Blank(w) => SpacesSmooth(w);
    case Commented(w, c, r) =>
      SpacesSmooth(w);
      SpacesSmooth(r);
      PlainIsSmooth("\n");
      PlainIsSmooth("//");
      SmoothConcat("\n", r);
      NoFenceConcat(c, "\n" + r);
      SmoothConcat("//", c + ("\n" + r));
      SmoothConcat(w, "//" + (c + ("\n" + r)));
  }

  lemma BraceGapSmooth(l: Layout, c: string)
    requires ValidLayout(l) && '`' !in c
    ensures Smooth(c + l.gap)
  {
    PlainIsSmooth(c);
    SpacesSmooth(l.gap);
    SmoothConcat(c, l.gap);
  }

  lemma {:induction false} TasksSmooth(l: Layout, ts: seq<Task>, tails: seq<Tail>, s: string)
    requires ValidLayout(l) && |tails| == |ts| && AllFenceFree(ts) && Smooth(s)
    requires forall t :: t in tails ==> ValidTail(t) && PlainComment(t)
    ensures Smooth(TasksText(l, ts, tails, s))
    decreases |ts|
  {
    if ts != [] {
      assert ts[0] in ts && tails[0] in tails;
      var sep := if |ts| > 1 then "," + l.gap else l.gap;
      var more := TasksText(l, ts[1..], tails[1..], s);
      TasksSmooth(l, ts[1..], tails[1..], s);
      BraceGapSmooth(l, ",");
      BraceGapSmooth(l, "{");
      SpacesSmooth(l.gap);
      SmoothConcat(sep, more);
      PlainIsSmooth("}");
      SmoothConcat("}", sep + more);
      TailSmooth(tails[0]);
      SmoothConcat(TailText(tails[0]), "}" + (sep + more));
      FieldsSmooth(l, ts[0], AllFields(), TailText(tails[0]) + ("}" + (sep + more)));
      SmoothConcat("{" + l.gap, FieldsText(l, ts[0], AllFields(), TailText(tails[0]) + ("}" + (sep + more))));
    }
  }

  lemma PlanSmooth(l: Layout, ts: seq<Task>, tails: seq<Tail>)
    requires ValidLayout(l) && |tails| == |ts| && AllFenceFree(ts)
    requires forall t :: t in tails ==> ValidTail(t) && PlainComment(t)
    ensures Smooth(PlanText(l, ts, tails))
  {
    var end := "]" + l.gap + "}";
    var tasks := TasksText(l, ts, tails, end);
    BraceGapSmooth(l, "{");
    BraceGapSmooth(l, "[");
    BraceGapSmooth(l, "]");
    PlainIsSmooth("}");
    SmoothConcat("]" + l.gap, "}");
    TasksSmooth(l, ts, tails, end);
    ColonSmooth(l);
    SmoothConcat(Colon(l), "[" + l.gap);
    SmoothConcat(Colon(l) + ("[" + l.gap), tasks);
    PlainIsSmooth("subTasks");
    QuotedSmooth("subTasks");
    SmoothConcat(Quoted("subTasks"), (Colon(l) + ("[" + l.gap)) + tasks);
    SmoothConcat("{" + l.gap, Quoted("subTasks") + ((Colon(l) + ("[" + l.gap)) + tasks));
  }

  // ---------- what is read holds neither fences nor comments ----------

  lemma TrimFree(s: string)
    requires NoFence(s)
    ensures NoFence(Trim(s))
  {
    TrimStartSuffix(s);
    NoFenceSuffix(s, |s| - |TrimStart(s)|);
    var t := TrimStart(s);
    TrimEndKeepsStart(t);
    NoFencePrefix(t, |TrimEnd(t)|);
    assert TrimEnd(t) == t[..|TrimEnd(t)|];
  }

  lemma {:induction false} RestOfLinePart(s: string)
    ensures RestOfLine(s) == s[|s| - |RestOfLine(s)|..]
    ensures RestOfLine(s) != "" ==> IsLineEnd(RestOfLine(s)[0])
  {
    if s != "" && !IsLineEnd(s[0]) {
      RestOfLinePart(s[1..]);
    }
  }

  /** What is left where a comment stood starts with the line's end, if anything is left. */
  lemma StrippedAtComment(s: string)
    requires Regexes.StartsWith(s, "//")
    ensures |RestOfLine(s)| < |s| && StripComments(s) == StripComments(RestOfLine(s))
    ensures RestOfLine(s) != "" ==> RestOfLine(s)[0] != '/' && RestOfLine(s)[0] != '`'
    ensures StripComments(s) != "" ==> RestOfLine(s) != "" && StripComments(s)[0] == RestOfLine(s)[0]
  {
    RestOfLinePart(s);
    assert "//"[0] == '/' && s[0] == "//"[0];
    assert RestOfLine(s) == RestOfLine(s[1..]);
  }

  /** Removing comments never joins backticks into a fence: a line's end stays. */
  lemma {:induction false} StripFree(s: string)
    requires NoFence(s)
    ensures NoFence(StripComments(s)) && BackticksKept(s, StripComments(s))
    decreases |s|
  {
    if s == "" {
    } else if Regexes.StartsWith(s, "//") {
      var q := RestOfLine(s);
      RestOfLinePart(s);
      StrippedAtComment(s);
      NoFenceSuffix(s, |s| - |q|);
      StripFree(q);
    } else {
      NoFenceTail(s);
      StripFree(s[1..]);
      var r := StripComments(s[1..]);
      StartsWithFence(s);
      StartsWithFence([s[0]] + r);
      NoFenceTail([s[0]] + r);
      assert ([s[0]] + r)[1..] == r;
    }
  }

  /** ... and never joins slashes into a comment. */
  lemma {:induction false} StripLeavesNoComment(s: string)
    ensures NoComment(StripComments(s))
    ensures StripComments(s) != "" && StripComments(s)[0] == '/' ==> s != "" && s[0] == '/'
    decreases |s|
  {
    if s == "" {
    } else if Regexes.StartsWith(s, "//") {
      StrippedAtComment(s);
      StripLeavesNoComment(RestOfLine(s));
    } else {
      StripLeavesNoComment(s[1..]);
      NotTwoSlashes(s);
      NoCommentCons(s[0], StripComments(s[1..]));
    }
  }

  lemma NotTwoSlashes(s: string)
    requires !Regexes.StartsWith(s, "//")
    ensures |s| > 1 ==> !(s[0] == '/' && s[1] == '/')
  {
    if |s| > 1 {
      assert s[..2] == [s[0], s[1]];
      assert "//" == ['/', '/'];
    }
  }

  lemma NoCommentCons(c: char, r: string)
    requires NoComment(r) && (r != "" ==> !(c == '/' && r[0] == '/'))
    ensures NoComment([c] + r)
  {
    var t := [c] + r;
    forall i, j | 0 <= i < j < |t| && j == i + 1 ensures !(t[i] == '/' && t[j] == '/') {
      if i > 0 {
        assert t[i] == r[i - 1] && t[j] == r[j - 1];
      }
    }
  }

  lemma NoCommentInside(s: string, i: nat, j: nat)
    requires NoComment(s) && i <= j <= |s|
    ensures NoComment(s[i..j])
  {
    var v := s[i..j];
    forall m, n | 0 <= m < n < |v| && n == m + 1 ensures !(v[m] == '/' && v[n] == '/') {
      assert v[m] == s[i + m] && v[n] == s[i + n];
    }
  }

  lemma FenceFreePiece(v: string, json: string)
    requires (Piece(v, Body(json)) || Plain(v)) && NoFence(json)
    ensures NoFence(v)
  {
    if Piece(v, Body(json)) {
      var i, j :| 0 <= i <= j <= |Body(json)| && v == Body(json)[i..j];
      assert v == json[i..j];
      NoFenceInside(json, i, j);
    } else {
      PlainIsSmooth(v);
    }
  }

  lemma CommentFreePiece(v: string, json: string)
    requires (Piece(v, Body(json)) || Plain(v)) && NoComment(json)
    ensures NoComment(v)
  {
    if Piece(v, Body(json)) {
      var i, j :| 0 <= i <= j <= |Body(json)| && v == Body(json)[i..j];
      assert v == json[i..j];
      NoCommentInside(json, i, j);
    } else {
      NoSlashNoComment(v);
    }
  }

  /** What the format can print and the reader gives back: no three backticks, no `//`, and ids
      that fit in a one-line list. */
  ghost predicate Survives(t: Task) {
    FenceFree(t) && CommentFree(t) && ListableIds(t)
  }

  ghost predicate AllSurvive(ts: seq<Task>) {
    forall t :: t in ts ==> Survives(t)
  }

  lemma ReadTaskSurvives(json: string, t: Task)
    requires NoFence(json) && NoComment(json) && TaskFrom(t, json)
    ensures Survives(t)
  {
    FenceFreePiece(t.id, json);
    FenceFreePiece(t.taskDescription, json);
    FenceFreePiece(t.agentRole, json);
    FenceFreePiece(t.agentObjective, json);
    FenceFreePiece(t.agentTaskPrompt, json);
    CommentFreePiece(t.id, json);
    CommentFreePiece(t.taskDescription, json);
    CommentFreePiece(t.agentRole, json);
    CommentFreePiece(t.agentObjective, json);
    CommentFreePiece(t.agentTaskPrompt, json);
    forall d | d in t.dependsOn ensures NoFence(d) && NoComment(d) {
      FenceFreePiece(d, json);
      CommentFreePiece(d, json);
    }
  }

  lemma BracedTextFree(s: string)
    requires NoFence(s) && NoComment(s) && InBraces(s).Some?
    ensures NoFence(InBraces(s).value) && NoComment(InBraces(s).value)
  {
    if InBraces(s).value != s {
      NoFenceInside(s, IndexOf(s, '{'), EndOfLast(s, '}'));
      NoCommentInside(s, IndexOf(s, '{'), EndOfLast(s, '}'));
    }
  }

  /** Whatever the block: every text of the plan read from it is without fences and comments, and
      every id fits in a one-line list. */
  lemma ReadTextsSurvive(block: string)
    ensures AllSurvive(PlanIn(block))
  {
    var body := RemoveFences(block);
    RemovalLeavesNone(block);
    TrimFree(body);
    var stripped := StripComments(Trim(body));
    StripFree(Trim(body));
    StripLeavesNoComment(Trim(body));
    if InBraces(stripped).Some? {
      BracedTextFree(stripped);
      var json := InBraces(stripped).value;
      forall t | t in PlanOf(json) ensures Survives(t) {
        PlanFrom(json, t);
        ReadTaskSurvives(json, t);
      }
    }
  }

  lemma AnswerTextsSurvive(answer: string)
    ensures AllSurvive(PlanInAnswer(answer))
  {
    if FindBlock(answer).Some? {
      ReadTextsSurvive(FindBlock(answer).value);
    }
  }

  // ---------- the round trips ----------

  /** A printed plan without the plan's own texts holding a fence is a block as it stands. */
  lemma BlockReadsBack(l: Layout, ts: seq<Task>, tails: seq<Tail>)
    requires ValidLayout(l) && |tails| == |ts| && AllFenceFree(ts)
    requires forall t :: t in ts ==> Printable(t)
    requires forall t :: t in tails ==> ValidTail(t) && PlainComment(t)
    ensures PlanIn(PlanText(l, ts, tails)) == ts
  {
    PlanSmooth(l, ts, tails);
    NothingToRemove(PlanText(l, ts, tails));
    PrintedBodyReadsBack(l, ts, tails);
  }

  lemma SurvivingIsPrintable(ts: seq<Task>)
    requires (forall t :: t in ts ==> Quotable(t)) && AllSurvive(ts)
    ensures (forall t :: t in ts ==> Printable(t)) && AllFenceFree(ts)
  {}

  /** Round trip of a block: a printed plan is read back unchanged exactly when its texts and ids
      hold no three backticks, which are removed, and no `//`, which ends the line, and its ids
      no closing bracket and no line end. */
  lemma PrintedPlanReadsBackIff(l: Layout, ts: seq<Task>, tails: seq<Tail>)
    requires ValidLayout(l) && |tails| == |ts|
    requires forall t :: t in ts ==> Quotable(t)
    requires forall t :: t in tails ==> ValidTail(t) && PlainComment(t)
    ensures PlanIn(PlanText(l, ts, tails)) == ts <==> AllSurvive(ts)
  {
    if AllSurvive(ts) {
      SurvivingIsPrintable(ts);
      BlockReadsBack(l, ts, tails);
    }
    ReadTextsSurvive(PlanText(l, ts, tails));
  }

  /** An answer with a plan in a json fence, and anything around it. */
  function Answer(before: string, w1: string, plan: string, w2: string, after: string): string {
    before + (JSON_FENCE + (w1 + plan + w2 + (FENCE + after)))
  }

  lemma {:induction false} TrimEndOf(s: string, w: string)
    requires Spaces(w) && (s == "" || !IsSpace(s[|s| - 1]))
    ensures TrimEnd(s + w) == s
    decreases |w|
  {
    if w == "" {
      assert s + w == s;
    } else {
      var n := |w| - 1;
      assert w[n] in w && (s + w)[..|s + w| - 1] == s + w[..n];
      TrimEndOf(s, w[..n]);
    }
  }

  lemma TrimAround(w1: string, s: string, w2: string)
    requires Spaces(w1) && Spaces(w2)
    requires s != "" && !IsSpace(s[0]) && !IsSpace(s[|s| - 1])
    ensures Trim(w1 + s + w2) == s
  {
    assert w1 + s + w2 == w1 + (s + w2);
    TrimStartOf(w1, s + w2);
    TrimEndOf(s, w2);
  }

  lemma InsideSmooth(w1: string, plan: string, w2: string)
    requires Spaces(w1) && Spaces(w2) && Smooth(plan)
    ensures Smooth(w1 + plan + w2)
  {
    SpacesSmooth(w1);
    SpacesSmooth(w2);
    SmoothConcat(w1, plan);
    SmoothConcat(w1 + plan, w2);
  }

  lemma CloserFound(inside: string, after: string)
    requires Smooth(inside)
    ensures Find(inside + (FENCE + after), FENCE) == Some(|inside|)
  {
    assert FENCE <= FENCE + after;
    FenceAfterSmooth(inside, FENCE + after);
  }

  lemma FencedBlockFound(before: string, w1: string, plan: string, w2: string, after: string)
    requires !Contains(before, JSON_FENCE) && Spaces(w1) && Spaces(w2) && Smooth(plan)
    requires plan != "" && !IsSpace(plan[0]) && !IsSpace(plan[|plan| - 1])
    ensures FindBlock(Answer(before, w1, plan, w2, after)) == Some(plan)
  {
    var inside, close := w1 + plan + w2, FENCE + after;
    var answer := Answer(before, w1, plan, w2, after);
    OpenerFound(before, inside + close);
    var rest := answer[|before| + |JSON_FENCE|..];
    assert rest == inside + close;
    InsideSmooth(w1, plan, w2);
    CloserFound(inside, after);
    assert rest[..|inside|] == inside;
    TrimAround(w1, plan, w2);
  }

  lemma PlanEnds(l: Layout, ts: seq<Task>, tails: seq<Tail>)
    requires |tails| == |ts|
    ensures var p := PlanText(l, ts, tails); p != "" && p[0] == '{' && p[|p| - 1] == '}'
  {
    TasksEnd(l, ts, tails, "]" + l.gap + "}");
  }

  /** Round trip of a whole answer: a plan printed in a json fence, after any prose without such a
      fence and before any other text, is read back when none of its texts holds a fence. */
  lemma FencedPlanReadsBack(before: string, w1: string, l: Layout, ts: seq<Task>, tails: seq<Tail>, w2: string, after: string)
    requires !Contains(before, JSON_FENCE) && Spaces(w1) && Spaces(w2)
    requires ValidLayout(l) && |tails| == |ts| && AllFenceFree(ts)
    requires forall t :: t in ts ==> Printable(t)
    requires forall t :: t in tails ==> ValidTail(t) && PlainComment(t)
    ensures PlanInAnswer(Answer(before, w1, PlanText(l, ts, tails), w2, after)) == ts
  {
    PlanSmooth(l, ts, tails);
    PlanEnds(l, ts, tails);
    assert !IsSpace('{') && !IsSpace('}');
    FencedBlockFound(before, w1, PlanText(l, ts, tails), w2, after);
    BlockReadsBack(l, ts, tails);
  }

  /** ... and only for such plans: no answer whatever reads back as a plan with a fence or a
      comment in its texts. */
  lemma FencedPlanReadsBackIff(before: string, w1: string, l: Layout, ts: seq<Task>, tails: seq<Tail>, w2: string, after: string)
    requires !Contains(before, JSON_FENCE) && Spaces(w1) && Spaces(w2)
    requires ValidLayout(l) && |tails| == |ts|
    requires forall t :: t in ts ==> Quotable(t)
    requires forall t :: t in tails ==> ValidTail(t) && PlainComment(t)
    ensures PlanInAnswer(Answer(before, w1, PlanText(l, ts, tails), w2, after)) == ts <==> AllSurvive(ts)
  {
    if AllSurvive(ts) {
      SurvivingIsPrintable(ts);
      FencedPlanReadsBack(before, w1, l, ts, tails, w2, after);
    }
    AnswerTextsSurvive(Answer(before, w1, PlanText(l, ts, tails), w2, after));
  }

  // ---------- a plain fence ----------

  /** An answer with a plan in a fence without a language. */
  function PlainAnswer(before: string, w1: string, plan: string, w2: string, after: string): string {
    before + (FENCE + (w1 + plan + w2 + (FENCE + after)))
  }

  /** Without a json fence, a plain one decides, whatever braces come before it. */
  lemma PlainBlockFound(before: string, w1: string, plan: string, w2: string, after: string)
    requires Smooth(before) && Spaces(w1) && Spaces(w2) && Smooth(plan)
    requires plan != "" && !IsSpace(plan[0]) && !IsSpace(plan[|plan| - 1])
    requires !Contains(PlainAnswer(before, w1, plan, w2, after), JSON_FENCE)
    ensures FindBlock(PlainAnswer(before, w1, plan, w2, after)) == Some(plan)
  {
    var inside, close := w1 + plan + w2, FENCE + after;
    var answer := PlainAnswer(before, w1, plan, w2, after);
    assert FENCE <= FENCE + (inside + close);
    FenceAfterSmooth(before, FENCE + (inside + close));
    var rest := answer[|before| + |FENCE|..];
    assert rest == inside + close;
    InsideSmooth(w1, plan, w2);
    CloserFound(inside, after);
    assert rest[..|inside|] == inside;
    TrimAround(w1, plan, w2);
  }

  /** Round trip with a plain fence: the same plans come back as with a json fence. */
  lemma PlainFencedPlanReadsBackIff(before: string, w1: string, l: Layout, ts: seq<Task>, tails: seq<Tail>, w2: string, after: string)
    requires Smooth(before) && Spaces(w1) && Spaces(w2)
    requires ValidLayout(l) && |tails| == |ts|
    requires forall t :: t in ts ==> Quotable(t)
    requires forall t :: t in tails ==> ValidTail(t) && PlainComment(t)
    requires !Contains(PlainAnswer(before, w1, PlanText(l, ts, tails), w2, after), JSON_FENCE)
    ensures PlanInAnswer(PlainAnswer(before, w1, PlanText(l, ts, tails), w2, after)) == ts <==> AllSurvive(ts)
  {
    if AllSurvive(ts) {
      SurvivingIsPrintable(ts);
      PlanSmooth(l, ts, tails);
      PlanEnds(l, ts, tails);
      assert !IsSpace('{') && !IsSpace('}');
      PlainBlockFound(before, w1, PlanText(l, ts, tails), w2, after);
      BlockReadsBack(l, ts, tails);
    }
    AnswerTextsSurvive(PlainAnswer(before, w1, PlanText(l, ts, tails), w2, after));
  }

  /** A complete json fence wins over a plain one, and over braces, that come before it. */
  lemma JsonFenceWins(p: string, x: string, q: string, w1: string, plan: string, w2: string, after: string)
    requires !Contains(p + (FENCE + (x + (FENCE + q))), JSON_FENCE) && Spaces(w1) && Spaces(w2) && Smooth(plan)
    requires plan != "" && !IsSpace(plan[0]) && !IsSpace(plan[|plan| - 1])
    ensures FindBlock(Answer(p + (FENCE + (x + (FENCE + q))), w1, plan, w2, after)) == Some(plan)
  {
    FencedBlockFound(p + (FENCE + (x + (FENCE + q))), w1, plan, w2, after);
  }

  /** A complete plain fence wins over braces that come before it. */
  lemma PlainFenceWins(p: string, x: string, q: string, w1: string, plan: string, w2: string, after: string)
    requires Smooth(p + ("{" + (x + ("}" + q)))) && Spaces(w1) && Spaces(w2) && Smooth(plan)
    requires plan != "" && !IsSpace(plan[0]) && !IsSpace(plan[|plan| - 1])
    requires !Contains(PlainAnswer(p + ("{" + (x + ("}" + q))), w1, plan, w2, after), JSON_FENCE)
    ensures FindBlock(PlainAnswer(p + ("{" + (x + ("}" + q))), w1, plan, w2, after)) == Some(plan)
  {
    PlainBlockFound(p + ("{" + (x + ("}" + q))), w1, plan, w2, after);
  }

  // ---------- what no answer can carry ----------

  /** A text with `//` needs no quotes and no fence, and is never read back. */
  lemma CommentedTextIsLost(answer: string, ts: seq<Task>, t: Task)
    requires t in ts && !CommentFree(t)
    ensures PlanInAnswer(answer) != ts
  {
    AnswerTextsSurvive(answer);
  }

  lemma WebAddressIsAComment(prompt: string)
    requires prompt == "leia https://example.org e resuma"
    ensures NoQuote(prompt) && !NoComment(prompt)
  {
    assert prompt[11] == '/' && prompt[12] == '/';
  }

  lemma WebAddressHoldsNoFence(prompt: string)
    requires prompt == "leia https://example.org e resuma"
    ensures NoFence(prompt)
  {
    PlainIsSmooth(prompt);
  }

  /** A web address in a prompt is enough: however the plan is answered, it is not read back. */
  lemma WebAddressIsLost(answer: string, ts: seq<Task>, t: Task)
    requires t in ts && t.agentTaskPrompt == "leia https://example.org e resuma"
    ensures NoQuote(t.agentTaskPrompt) && NoFence(t.agentTaskPrompt)
    ensures PlanInAnswer(answer) != ts
  {
    WebAddressIsAComment(t.agentTaskPrompt);
    WebAddressHoldsNoFence(t.agentTaskPrompt);
    CommentedTextIsLost(answer, ts, t);
  }

  // ---------- an answer without a fence ----------

  /** A task from its opening to its closing brace. */
  function TaskText(l: Layout, t: Task, tail: Tail): string {
    ("{" + l.gap) + FieldsText(l, t, AllFields(), TailText(tail) + "}")
  }

  /** What a plan starts with, up to the first task's closing brace. */
  function UpToFirstTask(l: Layout, t: Task, tail: Tail): string {
    ("{" + l.gap) + (Quoted("subTasks") + ((Colon(l) + ("[" + l.gap)) + TaskText(l, t, tail)))
  }

  /** No text of the task holds a closing brace. */
  predicate BraceFree(t: Task) {
    && '}' !in t.id && '}' !in t.taskDescription && '}' !in t.agentRole
    && '}' !in t.agentObjective && '}' !in t.agentTaskPrompt
    && forall d :: d in t.dependsOn ==> '}' !in d
  }

  ghost predicate BraceFreeTail(t: Tail) {
    t.Commented? ==> '}' !in t.comment
  }

  lemma {:induction false} FieldsAppend(l: Layout, t: Task, fs: seq<Field>, x: string, y: string)
    ensures FieldsText(l, t, fs, x + y) == FieldsText(l, t, fs, x) + y
    decreases |fs|
  {
    if fs != [] {
      FieldsAppend(l, t, fs[1..], x, y);
      var sep := if |fs| > 1 then "," + l.gap else "";
      var a, b, p, f := Quoted(Name(fs[0])), Colon(l), Printed(l, t, fs[0]), FieldsText(l, t, fs[1..], x);
      assert sep + (f + y) == (sep + f) + y;
      assert p + ((sep + f) + y) == (p + (sep + f)) + y;
      assert b + ((p + (sep + f)) + y) == (b + (p + (sep + f))) + y;
      assert a + ((b + (p + (sep + f))) + y) == (a + (b + (p + (sep + f)))) + y;
    }
  }

  lemma TaskComesFirst(l: Layout, ts: seq<Task>, tails: seq<Tail>, s: string) returns (more: string)
    requires |tails| == |ts| && ts != []
    ensures TasksText(l, ts, tails, s) == TaskText(l, ts[0], tails[0]) + more
  {
    more := (if |ts| > 1 then "," + l.gap else l.gap) + TasksText(l, ts[1..], tails[1..], s);
    var tail := TailText(tails[0]);
    FieldsAppend(l, ts[0], AllFields(), tail + "}", more);
    Associate(tail, "}", more);
    Associate("{" + l.gap, FieldsText(l, ts[0], AllFields(), tail + "}"), more);
  }

  lemma PlanStartsWithTask(l: Layout, ts: seq<Task>, tails: seq<Tail>) returns (more: string)
    requires |tails| == |ts| && ts != []
    ensures PlanText(l, ts, tails) == UpToFirstTask(l, ts[0], tails[0]) + more
  {
    more := TaskComesFirst(l, ts, tails, "]" + l.gap + "}");
    var a, b, c, d := "{" + l.gap, Quoted("subTasks"), Colon(l) + ("[" + l.gap), TaskText(l, ts[0], tails[0]);
    Associate(c, d, more);
    Associate(b, c + d, more);
    Associate(a, b + (c + d), more);
  }

  lemma SpacesBraceFree(w: string)
    requires Spaces(w)
    ensures '}' !in w
  {
    assert !IsSpace('}');
  }

  lemma {:induction false} DepsBraceFree(l: Layout, deps: seq<string>)
    requires ValidLayout(l) && forall d :: d in deps ==> '}' !in d
    ensures '}' !in DepsText(l, deps)
    decreases |deps|
  {
    if deps != [] {
      SpacesBraceFree(l.listGap);
      assert '}' !in Quoted(deps[0]);
      DepsBraceFree(l, deps[1..]);
    }
  }

  lemma PrintedBraceFree(l: Layout, t: Task, f: Field)
    requires ValidLayout(l) && BraceFree(t)
    ensures '}' !in Printed(l, t, f)
  {
    match f
    case Depends => DepsBraceFree(l, t.dependsOn);
    case _ =>
  }

  lemma NameBraceFree(f: Field)
    ensures '}' !in Quoted(Name(f))
  {
    match f
    case _ =>
  }

  lemma {:induction false} FieldsBraceFree(l: Layout, t: Task, fs: seq<Field>, s: string)
    requires ValidLayout(l) && BraceFree(t) && '}' !in s
    ensures '}' !in FieldsText(l, t, fs, s)
    decreases |fs|
  {
    if fs != [] {
      NameBraceFree(fs[0]);
      PrintedBraceFree(l, t, fs[0]);
      SpacesBraceFree(l.beforeColon);
      SpacesBraceFree(l.afterColon);
      SpacesBraceFree(l.gap);
      FieldsBraceFree(l, t, fs[1..], s);
    }
  }

  lemma TailBraceFree(t: Tail)
    requires ValidTail(t) && BraceFreeTail(t)
    ensures '}' !in TailText(t)
  {
    match t
    case Blank(w) => SpacesBraceFree(w);
    case Commented(w, c, r) =>
      SpacesBraceFree(w);
      SpacesBraceFree(r);
  }

  /** What is between the first opening and the first closing brace: gap, key, colon, fields. */
  function Middle(g: string, q: string, c: string, f: string): string {
    g + (q + ((c + ("[" + g)) + (("{" + g) + f)))
  }

  lemma MiddleInBraces(g: string, q: string, c: string, f: string)
    ensures ("{" + g) + (q + ((c + ("[" + g)) + (("{" + g) + (f + "}")))) == "{" + Middle(g, q, c, f) + "}"
    ensures '}' !in g && '}' !in q && '}' !in c && '}' !in f ==> '}' !in Middle(g, q, c, f)
  {
    Associate("{" + g, f, "}");
    var d, e := c + ("[" + g), ("{" + g) + f;
    Associate(d, e, "}");
    Associate(q, d + e, "}");
    Associate("{" + g, q + (d + e), "}");
    Associate("{", g, q + (d + e));
  }

  lemma TaskInBraces(l: Layout, t: Task, tail: Tail) returns (fields: string)
    ensures fields == FieldsText(l, t, AllFields(), TailText(tail))
    ensures UpToFirstTask(l, t, tail) == "{" + Middle(l.gap, Quoted("subTasks"), Colon(l), fields) + "}"
  {
    fields := FieldsText(l, t, AllFields(), TailText(tail));
    FieldsAppend(l, t, AllFields(), TailText(tail), "}");
    MiddleInBraces(l.gap, Quoted("subTasks"), Colon(l), fields);
  }

  /** The text up to the first task's closing brace holds no other closing brace. */
  lemma FirstBraceClosesTask(l: Layout, t: Task, tail: Tail) returns (mid: string)
    requires ValidLayout(l) && BraceFree(t) && ValidTail(tail) && BraceFreeTail(tail)
    ensures UpToFirstTask(l, t, tail) == "{" + mid + "}" && '}' !in mid
  {
    var fields := TaskInBraces(l, t, tail);
    mid := Middle(l.gap, Quoted("subTasks"), Colon(l), fields);
    assert '}' !in fields by {
      TailBraceFree(tail);
      FieldsBraceFree(l, t, AllFields(), TailText(tail));
    }
    assert '}' !in l.gap && '}' !in Colon(l) by {
      SpacesBraceFree(l.gap);
      SpacesBraceFree(l.beforeColon);
      SpacesBraceFree(l.afterColon);
    }
    assert '}' !in Quoted("subTasks") by {
      assert '}' !in "subTasks";
    }
    MiddleInBraces(l.gap, Quoted("subTasks"), Colon(l), fields);
  }

  lemma {:induction false} FindChar(a: string, c: char, s: string)
    requires c !in a
    ensures Find(a + ([c] + s), [c]) == Some(|a|)
    decreases |a|
  {
    var t := a + ([c] + s);
    if a == "" {
      assert t == [c] + s;
    } else {
      assert t[0] == a[0] && a[0] in a;
      assert t[1..] == a[1..] + ([c] + s);
      FindChar(a[1..], c, s);
    }
  }

  lemma {:induction false} NoJsonFence(s: string)
    requires NoFence(s)
    ensures !Contains(s, JSON_FENCE)
    decreases |s|
  {
    if JSON_FENCE <= s {
      JsonFenceIsFence(s);
    }
    if s != "" {
      NoFenceTail(s);
      NoJsonFence(s[1..]);
    }
  }

  lemma BareBlockFound(before: string, mid: string, after: string)
    requires '{' !in before && '}' !in mid
    requires NoFence(before + ("{" + mid + "}" + after))
    ensures FindBlock(before + ("{" + mid + "}" + after)) == Some("{" + mid + "}")
  {
    var answer := before + ("{" + mid + "}" + after);
    NoJsonFence(answer);
    assert "{" + mid + "}" + after == ['{'] + (mid + (['}'] + after));
    FindChar(before, '{', mid + (['}'] + after));
    var rest := answer[|before| + 1..];
    assert rest == mid + (['}'] + after);
    FindChar(mid, '}', after);
    assert rest[..|mid|] == mid;
  }

  lemma FirstTaskStripped(l: Layout, t: Task, tail: Tail)
    requires ValidLayout(l) && Printable(t) && ValidTail(tail)
    ensures StripComments(UpToFirstTask(l, t, tail)) == UpToFirstTask(l, t, Uncommented(tail))
  {
    OpeningStripped(l, TaskText(l, t, tail));
    TaskStripped(l, t, tail, "", "");
    assert "" + "" == "" && "}" + "" == "}";
  }

  lemma OneTaskFound(l: Layout, t: Task, w: string, key: Field)
    requires ValidLayout(l) && Printable(t) && Spaces(w)
    ensures Matches(UpToFirstTask(l, t, Blank(w)), key) == [Raw(l, t, key)]
  {
    OpeningSkipped(l, key, TaskText(l, t, Blank(w)));
    TaskFound(l, t, w, key, "", "");
    assert "" + "" == "" && "}" + "" == "}";
  }

  lemma AlreadyInBraces(mid: string)
    ensures var p := "{" + mid + "}"; InBraces(p) == Some(p) && Trim(p) == p
  {
    var p := "{" + mid + "}";
    assert p[0] == '{' && p[|p| - 1] == '}';
    assert !IsSpace('{') && !IsSpace('}');
    TrimmedStays(p);
  }

  lemma FirstTaskEnds(l: Layout, t: Task, tail: Tail)
    ensures InBraces(UpToFirstTask(l, t, tail)) == Some(UpToFirstTask(l, t, tail))
    ensures Trim(UpToFirstTask(l, t, tail)) == UpToFirstTask(l, t, tail)
  {
    var fields := TaskInBraces(l, t, tail);
    AlreadyInBraces(Middle(l.gap, Quoted("subTasks"), Colon(l), fields));
  }

  lemma FirstTaskMentionsSubTasks(l: Layout, t: Task, tail: Tail)
    ensures Contains(UpToFirstTask(l, t, tail), "subTasks")
  {
    var rest := (Colon(l) + ("[" + l.gap)) + TaskText(l, t, tail);
    QuotedInside("{" + l.gap, "subTasks", rest);
  }

  lemma QuotedInside(a: string, q: string, b: string)
    ensures Contains(a + (Quoted(q) + b), q)
  {
    ContainsIn(a + "\"", q, "\"" + b);
    assert a + (Quoted(q) + b) == (a + "\"") + (q + ("\"" + b));
  }

  lemma FirstTaskReadsBack(l: Layout, t: Task, tail: Tail)
    requires ValidLayout(l) && Printable(t) && ValidTail(tail)
    ensures PlanInBody(UpToFirstTask(l, t, tail)) == [t]
  {
    var bare := Uncommented(tail);
    var json := UpToFirstTask(l, t, bare);
    FirstTaskEnds(l, t, tail);
    FirstTaskStripped(l, t, tail);
    FirstTaskEnds(l, t, bare);
    FirstTaskMentionsSubTasks(l, t, bare);
    UncommentedIsBlank([tail]);
    assert UncommentedAll([tail])[0] == bare && bare in UncommentedAll([tail]);
    forall f: Field ensures Matches(json, f) == Raws(l, [t], f) {
      OneTaskFound(l, t, bare.space, f);
      assert Raws(l, [t], f) == [Raw(l, t, f)];
    }
    FoundPlanReadsBack(json, l, [t]);
  }

  /** A plan answered in the prompted format but without a fence is cut at the first closing
      brace: only its first task is read. */
  lemma BarePlanLosesTasks(before: string, l: Layout, ts: seq<Task>, tails: seq<Tail>, after: string)
    requires ValidLayout(l) && |tails| == |ts| && ts != []
    requires Printable(ts[0]) && BraceFree(ts[0]) && ValidTail(tails[0]) && BraceFreeTail(tails[0])
    requires '{' !in before && NoFence(before + (PlanText(l, ts, tails) + after))
    ensures PlanInAnswer(before + (PlanText(l, ts, tails) + after)) == [ts[0]]
  {
    var first := UpToFirstTask(l, ts[0], tails[0]);
    var more := PlanStartsWithTask(l, ts, tails);
    var mid := FirstBraceClosesTask(l, ts[0], tails[0]);
    Associate(first, more, after);
    BareBlockFound(before, mid, more + after);
    assert NoFence(first) by { NoFencePart(before, first, more + after); }
    NothingToRemove(first);
    FirstTaskReadsBack(l, ts[0], tails[0]);
  }

  lemma NoFencePart(a: string, b: string, c: string)
    requires NoFence(a + (b + c))
    ensures NoFence(b)
  {
    var s := a + (b + c);
    assert s[|a|..|a| + |b|] == b;
    NoFenceInside(s, |a|, |a| + |b|);
  }

  // ---------- what is read from a text with its only closing brace at the end ----------

  ghost predicate BraceLast(s: string) {
    '}' !in Body(s)
  }

  lemma BraceLastSuffix(s: string, n: nat)
    requires BraceLast(s) && n <= |s|
    ensures BraceLast(s[n..])
  {
    if n < |s| {
      assert Body(s[n..]) == Body(s)[n..];
    }
  }

  lemma BraceLastCons(c: char, r: string)
    requires BraceLast(r) && (r != "" ==> c != '}')
    ensures BraceLast([c] + r)
  {
    if r != "" {
      assert Body([c] + r) == [c] + Body(r);
    }
  }

  lemma {:induction false} StripBraceLast(s: string)
    requires BraceLast(s)
    ensures BraceLast(StripComments(s))
    decreases |s|
  {
    if s != "" {
      if Regexes.StartsWith(s, "//") {
        var q := RestOfLine(s);
        RestOfLinePart(s);
        StrippedAtComment(s);
        BraceLastSuffix(s, |s| - |q|);
        StripBraceLast(q);
      } else {
        BraceLastSuffix(s, 1);
        StripBraceLast(s[1..]);
        StripIsIdentityIff(s[1..]);
        if |s| > 1 {
          assert Body(s)[0] == s[0];
        }
        BraceLastCons(s[0], StripComments(s[1..]));
      }
    }
  }

  lemma BraceFreePiece(v: string, json: string)
    requires (Piece(v, Body(json)) || Plain(v)) && BraceLast(json)
    ensures '}' !in v
  {
    if Piece(v, Body(json)) {
      var i, j :| 0 <= i <= j <= |Body(json)| && v == Body(json)[i..j];
    }
  }

  lemma ReadTaskBraceFree(json: string, t: Task)
    requires BraceLast(json) && TaskFrom(t, json)
    ensures BraceFree(t)
  {
    BraceFreePiece(t.id, json);
    BraceFreePiece(t.taskDescription, json);
    BraceFreePiece(t.agentRole, json);
    BraceFreePiece(t.agentObjective, json);
    BraceFreePiece(t.agentTaskPrompt, json);
    forall d | d in t.dependsOn ensures '}' !in d {
      BraceFreePiece(d, json);
    }
  }

  lemma InBracesLast(s: string)
    requires BraceLast(s) && InBraces(s).Some?
    ensures BraceLast(InBraces(s).value)
  {}

  /** From a block with a single closing brace no text with one can be read. */
  lemma BareTextsBraceFree(mid: string)
    requires '}' !in mid && NoFence("{" + mid + "}")
    ensures forall t :: t in PlanIn("{" + mid + "}") ==> BraceFree(t)
  {
    var block := "{" + mid + "}";
    assert BraceLast(block);
    NothingToRemove(block);
    AlreadyInBraces(mid);
    StripBraceLast(block);
    var stripped := StripComments(block);
    if InBraces(stripped).Some? {
      InBracesLast(stripped);
      var json := InBraces(stripped).value;
      forall t | t in PlanOf(json) ensures BraceFree(t) {
        PlanFrom(json, t);
        ReadTaskBraceFree(json, t);
      }
    }
  }

  lemma {:induction false} FirstChar(s: string, c: char)
    ensures Find(s, [c]).Some? ==> s[Find(s, [c]).value] == c && c !in s[..Find(s, [c]).value]
  {
    if s != "" && s[0] != c {
      assert !([c] <= s);
      FirstChar(s[1..], c);
    }
  }

  lemma BareBlockShape(answer: string)
    requires NoFence(answer) && FindBlock(answer).Some?
    ensures exists mid :: FindBlock(answer) == Some("{" + mid + "}") && '}' !in mid && NoFence("{" + mid + "}")
  {
    NoJsonFence(answer);
    var i := Find(answer, "{").value;
    var rest := answer[i + 1..];
    var j := Find(rest, "}").value;
    FirstChar(rest, '}');
    assert NoFence("{" + rest[..j] + "}") by {
      FirstChar(answer, '{');
      NoFenceAround(answer, i, j);
    }
  }

  lemma NoFenceAround(s: string, i: nat, j: nat)
    requires NoFence(s) && i + j + 2 <= |s| && s[i] == '{' && s[i + 1..][j] == '}'
    ensures NoFence("{" + s[i + 1..][..j] + "}")
  {
    NoFenceInside(s, i, i + j + 2);
    assert s[i..i + j + 2] == "{" + s[i + 1..][..j] + "}";
  }

  lemma BareAnswerBraceFree(answer: string)
    requires NoFence(answer)
    ensures forall t :: t in PlanInAnswer(answer) ==> BraceFree(t)
  {
    if FindBlock(answer).Some? {
      BareBlockShape(answer);
      var mid :| FindBlock(answer) == Some("{" + mid + "}") && '}' !in mid && NoFence("{" + mid + "}");
      BareTextsBraceFree(mid);
    }
  }

  /** So it is read back exactly when it has a single task that would be read back in a fence and
      holds no closing brace. */
  lemma BarePlanReadsBackIff(before: string, l: Layout, ts: seq<Task>, tails: seq<Tail>, after: string)
    requires ValidLayout(l) && |tails| == |ts| && ts != []
    requires Quotable(ts[0]) && ValidTail(tails[0]) && BraceFreeTail(tails[0])
    requires '{' !in before && NoFence(before + (PlanText(l, ts, tails) + after))
    ensures PlanInAnswer(before + (PlanText(l, ts, tails) + after)) == ts <==>
            |ts| == 1 && Survives(ts[0]) && BraceFree(ts[0])
  {
    var answer := before + (PlanText(l, ts, tails) + after);
    if Survives(ts[0]) && BraceFree(ts[0]) {
      BarePlanLosesTasks(before, l, ts, tails, after);
    }
    BareAnswerBraceFree(answer);
    AnswerTextsSurvive(answer);
    assert ts[0] in ts;
  }
}
