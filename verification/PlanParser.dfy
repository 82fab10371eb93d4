/**
 Reading a plan back from a model's answer (`generateTaskPlan`): the i-th occurrence of each
 field, found by pattern over the whole text, makes the i-th task. The inverse it is proved
 against is printing in the seven-field format the prompt asks for, with any whitespace and
 with the trailing comments the prompt's own example shows.
 */
module PlanParser {
  import opened Common
  import opened Plan
  import opened Regexes
  import opened Fences

  datatype Field = Id | Description | AgentRole | Objective | Prompt | Search | Depends

  function Name(f: Field): string {
    match f
    case Id => "id"
    case Description => "taskDescription"
    case AgentRole => "agentRole"
    case Objective => "agentObjective"
    case Prompt => "agentTaskPrompt"
    case Search => "enableGoogleSearch"
    case Depends => "dependsOn"
  }

  function KindOf(f: Field): Kind {
    match f
    case Search => Flag
    case Depends => List
    case _ => Text
  }

  // ---------- the code: reconstruction ----------

  function Matches(json: string, f: Field): seq<string> {
    FindAll(Name(f), KindOf(f), json)
  }

  function Nth(ms: seq<string>, i: nat, default: string): string {
    if i < |ms| then ms[i] else default
  }

  /** Words of a list without quotes; a comma on its own is dropped. */
  function Words(s: string, word: string): seq<string> {
    if s == "" then Word(word)
    else if IsSpace(s[0]) then Word(word) + Words(s[1..], "")
    else Words(s[1..], word + [s[0]])
  }

  function Word(w: string): seq<string> {
    if w == "" || w == "," then [] else [w]
  }

  /** Words with whitespace between them. */
  function JoinWords(ws: seq<string>, gap: string): string {
    if ws == [] then "" else if |ws| == 1 then ws[0] else ws[0] + (gap + JoinWords(ws[1..], gap))
  }

  predicate IsWord(w: string) {
    w != "" && forall c :: c in w ==> !IsSpace(c)
  }

  /** Commas that stand alone are no words. */
  function WithoutCommas(ws: seq<string>): seq<string> {
    if ws == [] then [] else (if ws[0] == "," then [] else [ws[0]]) + WithoutCommas(ws[1..])
  }

  lemma {:induction false} WordTaken(w: string, s: string, word: string)
    requires forall c :: c in w ==> !IsSpace(c)
    ensures Words(w + s, word) == Words(s, word + w)
    decreases |w|
  {
    if w == "" {
      assert w + s == s && word + w == word;
    } else {
      assert w[0] in w && (w + s)[1..] == w[1..] + s;
      WordTaken(w[1..], s, word + [w[0]]);
      assert (word + [w[0]]) + w[1..] == word + w;
    }
  }

  lemma {:induction false} GapTaken(gap: string, s: string)
    requires Spaces(gap)
    ensures Words(gap + s, "") == Words(s, "")
  {
    if gap == "" {
      assert gap + s == s;
    } else {
      assert gap[0] in gap && (gap + s)[1..] == gap[1..] + s;
      GapTaken(gap[1..], s);
    }
  }

  lemma GapEndsWord(w: string, gap: string, s: string)
    requires Spaces(gap) && gap != ""
    ensures Words(gap + s, w) == Word(w) + Words(s, "")
  {
    assert gap[0] in gap && (gap + s)[1..] == gap[1..] + s;
    GapTaken(gap[1..], s);
  }

  /** Bare words are read back, whatever whitespace is between them. */
  lemma {:induction false} WordsReadBack(ws: seq<string>, gap: string)
    requires Spaces(gap) && gap != "" && forall w :: w in ws ==> IsWord(w)
    ensures Words(JoinWords(ws, gap), "") == WithoutCommas(ws)
  {
    if ws != [] {
      var w := ws[0];
      assert IsWord(w) && "" + w == w;
      if |ws| == 1 {
        assert w + "" == w && ws[1..] == [];
        WordTaken(w, "", "");
      } else {
        WordTaken(w, gap + JoinWords(ws[1..], gap), "");
        GapEndsWord(w, gap, JoinWords(ws[1..], gap));
        WordsReadBack(ws[1..], gap);
      }
    }
  }

  /** The dependency ids in the captured inside of a list. */
  function ReadDependencies(inside: string): seq<string> {
    var quoted := FindQuoted(inside);
    if quoted != [] then quoted else Words(inside, "")
  }

  /** Stands in for a text field with too few occurrences. */
  function Default(f: Field, i: nat): string {
    match f
    case Description => "Tarefa " + Decimal(i + 1)
    case AgentRole => "Agente Especialista"
    case Objective => "Executar a tarefa designada"
    case Prompt => "Executar a tarefa conforme necessário"
    case _ => "task" + Decimal(i + 1)
  }

  function TextAt(json: string, f: Field, i: nat): string {
    Nth(Matches(json, f), i, Default(f, i))
  }

  /** The i-th task has the i-th id, and of every other field the i-th occurrence or, where there are
      too few, a text that says so, no search and no dependencies. */
  ghost predicate IsRebuilt(json: string, i: nat, t: Task) {
    && i < |Matches(json, Id)| && t.id == Matches(json, Id)[i]
    && t.taskDescription == Nth(Matches(json, Description), i, "Tarefa " + Decimal(i + 1))
    && t.agentRole == Nth(Matches(json, AgentRole), i, "Agente Especialista")
    && t.agentObjective == Nth(Matches(json, Objective), i, "Executar a tarefa designada")
    && t.agentTaskPrompt == Nth(Matches(json, Prompt), i, "Executar a tarefa conforme necessário")
    && (t.enableGoogleSearch <==> Nth(Matches(json, Search), i, "false") == "true")
    && (i >= |Matches(json, Depends)| ==> t.dependsOn == [])
  }

  function FlagAt(json: string, i: nat): bool {
    i < |Matches(json, Search)| && Matches(json, Search)[i] == "true"
  }

  function ListAt(json: string, i: nat): seq<string> {
    if i < |Matches(json, Depends)| then ReadDependencies(Matches(json, Depends)[i]) else []
  }

  function TaskAt(json: string, i: nat): Task {
    Task(TextAt(json, Id, i), TextAt(json, Description, i), TextAt(json, AgentRole, i),
         TextAt(json, Objective, i), TextAt(json, Prompt, i), FlagAt(json, i), ListAt(json, i))
  }

  lemma TaskIsRebuilt(json: string, i: nat)
    requires i < |Matches(json, Id)|
    ensures IsRebuilt(json, i, TaskAt(json, i))
  {}

  /** The plan found in a text in braces. */
  function PlanOf(json: string): seq<Task> {
    if !Contains(json, "subTasks") then []
    else seq(|Matches(json, Id)|, (i: nat) => TaskAt(json, i))
  }

  /** The loop over the ids: each task's fields are looked up by position. */
  method Reconstruct(json: string) returns (tasks: seq<Task>)
    ensures tasks == PlanOf(json)
    ensures tasks == [] <==> !Contains(json, "subTasks") || Matches(json, Id) == []
    ensures forall i :: 0 <= i < |tasks| ==> IsRebuilt(json, i, tasks[i])
  {
    forall i: nat | i < |Matches(json, Id)| ensures IsRebuilt(json, i, TaskAt(json, i)) {
      TaskIsRebuilt(json, i);
    }
    if !Contains(json, "subTasks") {
      return [];
    }
    tasks := RebuildAll(json, Matches(json, Id));
  }

  method RebuildAll(json: string, ids: seq<string>) returns (tasks: seq<Task>)
    requires ids == Matches(json, Id)
    ensures tasks == seq(|ids|, (i: nat) => TaskAt(json, i))
  {
    ghost var plan := seq(|ids|, (i: nat) => TaskAt(json, i));
    tasks := [];
    for i := 0 to |ids|
      invariant tasks == plan[..i]
    {
      var task := RebuildTask(json, ids[i], i);
      assert plan[i] == task;
      tasks := tasks + [task];
    }
  }

  method RebuildTask(json: string, taskId: string, i: nat) returns (task: Task)
    requires i < |Matches(json, Id)| && taskId == Matches(json, Id)[i]
    ensures task == TaskAt(json, i)
  {
    var searches := Matches(json, Search);
    var enableGoogleSearch := if i < |searches| then searches[i] == "true" else false;
    var dependsOn := DependenciesAt(json, i);
    task := Task(taskId, TextAt(json, Description, i), TextAt(json, AgentRole, i), TextAt(json, Objective, i),
                 TextAt(json, Prompt, i), enableGoogleSearch, dependsOn);
  }

  /** The dependency list of the i-th task: quoted ids, or bare words when there are none. */
  method DependenciesAt(json: string, i: nat) returns (dependsOn: seq<string>)
    ensures dependsOn == ListAt(json, i)
  {
    dependsOn := [];
    var lists := Matches(json, Depends);
    if i < |lists| && lists[i] != "" {
      dependsOn := FindQuoted(lists[i]);
      if dependsOn == [] {
        dependsOn := Words(lists[i], "");
      }
    }
  }

  function IndexOf(s: string, c: char): (i: nat)
    ensures i <= |s| && (i < |s| ==> s[i] == c) && c !in s[..i]
  {
    if s == "" || s[0] == c then 0 else 1 + IndexOf(s[1..], c)
  }

  /** One more than the last position of `c`, or 0. */
  function EndOfLast(s: string, c: char): (i: nat)
    ensures i <= |s| && (i > 0 ==> s[i - 1] == c) && c !in s[i..]
  {
    if s == "" || s[|s| - 1] == c then |s| else EndOfLast(s[..|s| - 1], c)
  }

  /** The text itself when it is in braces, else from the first opening to the last closing one. */
  function InBraces(s: string): Option<string> {
    if s != "" && s[0] == '{' && s[|s| - 1] == '}' then Some(s)
    else
      var from, to := IndexOf(s, '{'), EndOfLast(s, '}');
      if from < |s| && to > from + 1 then Some(s[from..to]) else None
  }

  /** A text around which there is something else is found by its braces. */
  lemma InBracesFound(before: string, mid: string, after: string)
    requires '{' !in before && '}' !in after && (before != "" || after != "")
    ensures InBraces(before + ("{" + mid + "}") + after) == Some("{" + mid + "}")
  {
    var s := before + ("{" + mid + "}") + after;
    var from, to := |before|, |before| + |mid| + 2;
    assert s[from] == '{' && s[to - 1] == '}' && s[from..to] == "{" + mid + "}";
    assert forall i :: 0 <= i < from ==> s[i] == before[i];
    assert forall i :: to <= i < |s| ==> s[i] == after[i - to];
    assert IndexOf(s, '{') == from by { OnlyIndex(s, '{', from); }
    assert EndOfLast(s, '}') == to by { OnlyEnd(s, '}', to); }
    if before == "" {
      assert s[|s| - 1] == after[|after| - 1];
    }
  }

  lemma OnlyIndex(s: string, c: char, i: nat)
    requires i < |s| && s[i] == c && forall k :: 0 <= k < i ==> s[k] != c
    ensures IndexOf(s, c) == i
  {
    var j := IndexOf(s, c);
    assert forall k :: 0 <= k < j ==> s[..j][k] != c;
  }

  lemma OnlyEnd(s: string, c: char, i: nat)
    requires 0 < i <= |s| && s[i - 1] == c && forall k :: i <= k < |s| ==> s[k] != c
    ensures EndOfLast(s, c) == i
  {
    var j := EndOfLast(s, c);
    assert forall k :: 0 <= k < |s| - j ==> s[j..][k] != c;
  }

  /** A block without fences, trimmed and without comments, read as a plan. */
  function PlanInBody(body: string): seq<Task> {
    var json := InBraces(StripComments(Trim(body)));
    if json.None? then [] else PlanOf(json.value)
  }

  /** The extracted block: whatever fences it still holds are removed first. */
  function PlanIn(block: string): seq<Task> {
    PlanInBody(RemoveFences(block))
  }

  method ReadPlan(block: string) returns (tasks: seq<Task>)
    ensures tasks == PlanIn(block)
  {
    var json := InBraces(StripComments(Trim(RemoveFences(block))));
    if json.None? {
      return [];
    }
    tasks := Reconstruct(json.value);
  }

  // ---------- the code: finding the block ----------

  /** `match[1] || match[0]`: the whitespace at both ends is outside the capture. */
  function Content(b: Block): string {
    if Trim(b.inside) != "" then Trim(b.inside) else b.whole
  }

  /** A block in a json fence, else one in a plain fence, else from the first opening brace to the
      next closing one. */
  function FindBlock(answer: string): Option<string> {
    var json := Between(answer, JSON_FENCE, FENCE);
    if json.Some? then Some(Content(json.value))
    else
      var fenced := Between(answer, FENCE, FENCE);
      if fenced.Some? then Some(Content(fenced.value))
      else
        var braces := Between(answer, "{", "}");
        if braces.Some? then Some(braces.value.whole) else None
  }

  function PlanInAnswer(answer: string): seq<Task> {
    var block := FindBlock(answer);
    if block.None? then [] else PlanIn(block.value)
  }

  method ReadAnswer(answer: string) returns (tasks: seq<Task>)
    ensures tasks == PlanInAnswer(answer)
  {
    var block := FindBlock(answer);
    if block.None? {
      return [];
    }
    tasks := ReadPlan(block.value);
  }

  // ---------- the prompted format ----------

  /** Whitespace around colons, between items, and inside dependency lists. */
  datatype Layout = Layout(beforeColon: string, afterColon: string, gap: string, listGap: string)

  ghost predicate ValidLayout(l: Layout) {
    && Spaces(l.beforeColon) && Spaces(l.afterColon) && Spaces(l.gap) && Spaces(l.listGap)
    && forall c :: c in l.listGap ==> !IsLineEnd(c)
  }

  function Colon(l: Layout): string {
    l.beforeColon + ":" + l.afterColon
  }

  function DepsText(l: Layout, deps: seq<string>): string {
    if deps == [] then ""
    else Quoted(deps[0]) + (if |deps| > 1 then "," + l.listGap else "") + DepsText(l, deps[1..])
  }

  /** What the pattern of a field captures. */
  function Raw(l: Layout, t: Task, f: Field): string {
    match f
    case Id => t.id
    case Description => t.taskDescription
    case AgentRole => t.agentRole
    case Objective => t.agentObjective
    case Prompt => t.agentTaskPrompt
    case Search => if t.enableGoogleSearch then "true" else "false"
    case Depends => DepsText(l, t.dependsOn)
  }

  function Printed(l: Layout, t: Task, f: Field): string {
    match KindOf(f)
    case Text => Quoted(Raw(l, t, f))
    case Flag => Raw(l, t, f)
    case List => "[" + Raw(l, t, f) + "]"
  }

  function FieldsText(l: Layout, t: Task, fs: seq<Field>, s: string): string {
    if fs == [] then s
    else
      var rest := (if |fs| > 1 then "," + l.gap else "") + FieldsText(l, t, fs[1..], s);
      Quoted(Name(fs[0])) + (Colon(l) + (Printed(l, t, fs[0]) + rest))
  }

  function AllFields(): seq<Field> {
    [Id, Description, AgentRole, Objective, Prompt, Search, Depends]
  }

  /** What stands between a task's last field and its closing brace: whitespace, possibly
      with a comment up to the end of the line. */
  datatype Tail = Blank(space: string) | Commented(space: string, comment: string, rest: string)

  ghost predicate ValidTail(t: Tail) {
    match t
    case Blank(w) => Spaces(w)
    case Commented(w, c, r) => Spaces(w) && Spaces(r) && forall x :: x in c ==> !IsLineEnd(x)
  }

  function TailText(t: Tail): string {
    match t
    case Blank(w) => w
    case Commented(w, c, r) => w + ("//" + (c + ("\n" + r)))
  }

  function Uncommented(t: Tail): Tail {
    match t
    case Blank(w) => t
    case Commented(w, c, r) => Blank(w + ("\n" + r))
  }

  function TasksText(l: Layout, ts: seq<Task>, tails: seq<Tail>, s: string): string
    requires |tails| == |ts|
  {
    if ts == [] then s
    else
      var rest := (if |ts| > 1 then "," + l.gap else l.gap) + TasksText(l, ts[1..], tails[1..], s);
      ("{" + l.gap) + FieldsText(l, ts[0], AllFields(), TailText(tails[0]) + ("}" + rest))
  }

  /** A printed plan. */
  function PlanText(l: Layout, ts: seq<Task>, tails: seq<Tail>): string
    requires |tails| == |ts|
  {
    ("{" + l.gap) + (Quoted("subTasks") + ((Colon(l) + ("[" + l.gap)) + TasksText(l, ts, tails, "]" + l.gap + "}")))
  }

  /** Texts and ids without quotes: the format has no way to print any other, as the reader has no
      escapes. */
  predicate Quotable(t: Task) {
    && NoQuote(t.id) && NoQuote(t.taskDescription) && NoQuote(t.agentRole)
    && NoQuote(t.agentObjective) && NoQuote(t.agentTaskPrompt)
    && forall d :: d in t.dependsOn ==> NoQuote(d)
  }

  /** Texts and ids without `//`. */
  ghost predicate CommentFree(t: Task) {
    && NoComment(t.id) && NoComment(t.taskDescription) && NoComment(t.agentRole)
    && NoComment(t.agentObjective) && NoComment(t.agentTaskPrompt)
    && forall d :: d in t.dependsOn ==> NoComment(d)
  }

  /** Fits in a one-line list: no closing bracket, no line end. */
  predicate Listable(d: string) {
    forall c :: c in d ==> c != ']' && !IsLineEnd(c)
  }

  predicate ListableIds(t: Task) {
    forall d :: d in t.dependsOn ==> Listable(d)
  }

  ghost predicate Printable(t: Task) {
    Quotable(t) && CommentFree(t) && ListableIds(t)
  }

  ghost predicate PrintableId(d: string) {
    NoQuote(d) && NoComment(d) && Listable(d)
  }
}
