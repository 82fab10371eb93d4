/** One turn of ChatAgent: the model's answers are a finite script, the tool loop and the
    history it leaves are the code's. Delegation to registry specialists is off, as
    RoutingChatManager leaves it. */
module Conversation {
  import opened Common
  import opened ConversationLog
  import opened SubconversationTools
  import opened Protocol

  /** A tool's result: a signal, or anything else as text. */
  datatype ToolResult = Signalled(signal: Signal) | Plain(text: string)

  datatype ToolOutcome = Returned(result: ToolResult) | Threw(message: string)

  /** The model asks for a tool; `ownOutcome` is what a tool other than the two signalling
      ones does with the arguments. */
  datatype FunctionCall = FunctionCall(text: string, name: string, args: Args, ownOutcome: ToolOutcome)

  /** How the model's part of a turn ends: a text answer (possibly empty), no response object,
      or an exception out of the model call. */
  datatype Ending = Final(text: string) | NoResponse | Crash

  datatype Turn = Turn(calls: seq<FunctionCall>, ending: Ending)

  datatype Tool = RequestTool | EndTool | OwnTool

  type Toolbox = map<string, Tool>

  const EMPTY_ANSWER := "[Ocorreu um erro interno ao processar a resposta]"

  /** The result of a requested tool, including the texts that stand for a missing tool and
      for one that throws. */
  function RunTool(tools: Toolbox, call: FunctionCall): ToolResult {
    if call.name !in tools then Plain("Erro: Função '" + call.name + "' não encontrada nas tools do agente.")
    else match tools[call.name]
      case RequestTool => Signalled(RequestSpecialist(call.args))
      case EndTool => Signalled(EndSpecialist(call.args))
      case OwnTool =>
        match call.ownOutcome
        case Returned(r) => r
        case Threw(message) => Plain("Erro ao executar a função '" + call.name + "': " + message)
  }

  /** The two entries a tool call leaves: the model's intention and, as a user message, the tool's
      name and result serialised together (`toJson`). */
  function CallEntries(tools: Toolbox, toJson: (string, ToolResult) -> string, call: FunctionCall): seq<Message> {
    [Message(Role.Model, if call.text != "" then call.text else "[Function Call: " + call.name + "]"),
     Message(User, "[Resultado da Função: " + call.name + "]\n" + toJson(call.name, RunTool(tools, call)))]
  }

  function CallsEntries(tools: Toolbox, toJson: (string, ToolResult) -> string, calls: seq<FunctionCall>): seq<Message> {
    if calls == [] then [] else CallEntries(tools, toJson, calls[0]) + CallsEntries(tools, toJson, calls[1..])
  }

  lemma CallsEntriesGrow(tools: Toolbox, toJson: (string, ToolResult) -> string, calls: seq<FunctionCall>, i: nat)
    requires i < |calls|
    ensures CallsEntries(tools, toJson, calls[..i + 1])
         == CallsEntries(tools, toJson, calls[..i]) + CallEntries(tools, toJson, calls[i])
    ensures LastResult(tools, calls[..i + 1]) == Some(RunTool(tools, calls[i]))
  {
    assert calls[..i + 1] == calls[..i] + [calls[i]];
    CallsEntriesSnoc(tools, toJson, calls[..i], calls[i]);
  }

  lemma {:induction false} CallsEntriesSnoc(tools: Toolbox, toJson: (string, ToolResult) -> string, calls: seq<FunctionCall>, call: FunctionCall)
    ensures CallsEntries(tools, toJson, calls + [call])
         == CallsEntries(tools, toJson, calls) + CallEntries(tools, toJson, call)
  {
    if calls == [] {
      assert [] + [call] == [call] && [call][1..] == [];
      assert CallsEntries(tools, toJson, [call]) == CallEntries(tools, toJson, call) + [];
    } else {
      CallsEntriesSnoc(tools, toJson, calls[1..], call);
      assert (calls + [call])[1..] == calls[1..] + [call];
      var h, m, e := CallEntries(tools, toJson, calls[0]), CallsEntries(tools, toJson, calls[1..]), CallEntries(tools, toJson, call);
      assert h + (m + e) == (h + m) + e;
    }
  }

  function FinalEntries(ending: Ending): seq<Message> {
    if ending.Final? && ending.text != "" then [Message(Role.Model, ending.text)] else []
  }

  /** Everything a turn appends to the history. */
  function TurnEntries(tools: Toolbox, toJson: (string, ToolResult) -> string, message: string, turn: Turn): seq<Message> {
    [Message(User, message)] + CallsEntries(tools, toJson, turn.calls) + FinalEntries(turn.ending)
  }

  function LastResult(tools: Toolbox, calls: seq<FunctionCall>): Option<ToolResult> {
    if calls == [] then None else Some(RunTool(tools, calls[|calls| - 1]))
  }

  /** What `processUserMessage` returns. */
  function AnswerTo(tools: Toolbox, turn: Turn): Outcome {
    match turn.ending
    case Crash => Failed
    case NoResponse => Replied(EMPTY_ANSWER, None)
    case Final(text) =>
      match LastResult(tools, turn.calls)
      case Some(Signalled(s)) => Replied(text, if text != "" then Some(s) else None)
      case _ => Replied(text, None)
  }

  predicate Answered(turn: Turn) {
    turn.ending.Final? && turn.ending.text != ""
  }

  lemma {:induction false} CallsEntriesShape(tools: Toolbox, toJson: (string, ToolResult) -> string, calls: seq<FunctionCall>)
    ensures var e := CallsEntries(tools, toJson, calls);
      |e| == 2 * |calls| && forall i :: 0 <= i < |e| ==> e[i].role == if i % 2 == 0 then Role.Model else User
  {
    if calls != [] {
      CallsEntriesShape(tools, toJson, calls[1..]);
      var e, rest := CallsEntries(tools, toJson, calls), CallsEntries(tools, toJson, calls[1..]);
      forall i | 0 <= i < |e| ensures e[i].role == if i % 2 == 0 then Role.Model else User {
        if i >= 2 {
          assert e[i] == rest[i - 2];
        }
      }
    }
  }

  // ---------- what a turn answers and records ----------

  /** A missing tool and one that throws are told as texts; the signalling tools give their signal,
      any other tool what it returned. */
  ghost predicate IsToolResult(tools: Toolbox, call: FunctionCall, r: ToolResult) {
    if call.name !in tools then
      r == Plain("Erro: Função '" + call.name + "' não encontrada nas tools do agente.")
    else
      match tools[call.name]
      case RequestTool => r == Signalled(RequestSpecialist(call.args))
      case EndTool => r == Signalled(EndSpecialist(call.args))
      case OwnTool =>
        match call.ownOutcome
        case Returned(x) => r == x
        case Threw(m) => r == Plain("Erro ao executar a função '" + call.name + "': " + m)
  }

  /** The turn fails iff the model call throws; without a response object the internal-error text
      comes back; otherwise the model's final text does, whatever tools ran, with the signal of the
      last one when there is text. */
  ghost predicate IsAnswer(tools: Toolbox, turn: Turn, o: Outcome) {
    match turn.ending
    case Crash => o.Failed?
    case NoResponse => o == Replied("[Ocorreu um erro interno ao processar a resposta]", None)
    case Final(text) =>
      && o.Replied? && o.text == text
      && (o.signal.Some? ==>
            text != "" && turn.calls != [] && IsToolResult(tools, turn.calls[|turn.calls| - 1], Signalled(o.signal.value)))
      && (o.signal.None? && text != "" && turn.calls != [] ==>
            exists t :: IsToolResult(tools, turn.calls[|turn.calls| - 1], Plain(t)))
  }

  /** The intention to call a tool, in the model's own words if it had any, and the tool's name and
      result, as a user message. */
  ghost predicate RecordsCall(tools: Toolbox, toJson: (string, ToolResult) -> string, call: FunctionCall,
                              intention: Message, outcome: Message) {
    && intention == Message(Role.Model, if call.text != "" then call.text else "[Function Call: " + call.name + "]")
    && exists r :: (
         && IsToolResult(tools, call, r)
         && outcome == Message(User, "[Resultado da Função: " + call.name + "]\n" + toJson(call.name, r)))
  }

  /** The user's message, the two entries of each call in order, and the final text if there is one. */
  ghost predicate IsTurnRecord(tools: Toolbox, toJson: (string, ToolResult) -> string, message: string, turn: Turn,
                               e: seq<Message>) {
    var n := |turn.calls|;
    && |e| == 1 + 2 * n + (if Answered(turn) then 1 else 0)
    && e[0] == Message(User, message)
    && (forall k :: 0 <= k < n ==> RecordsCall(tools, toJson, turn.calls[k], e[2 * k + 1], e[2 * k + 2]))
    && (Answered(turn) ==> e[2 * n + 1] == Message(Role.Model, turn.ending.text))
  }

  lemma RunToolIsResult(tools: Toolbox, call: FunctionCall)
    ensures IsToolResult(tools, call, RunTool(tools, call))
  {}

  lemma AnswerIsAnswer(tools: Toolbox, turn: Turn)
    ensures IsAnswer(tools, turn, AnswerTo(tools, turn))
  {
    if turn.calls != [] {
      RunToolIsResult(tools, turn.calls[|turn.calls| - 1]);
    }
  }

  lemma {:induction false} CallsEntriesAt(tools: Toolbox, toJson: (string, ToolResult) -> string, calls: seq<FunctionCall>, k: nat)
    requires k < |calls|
    ensures var e := CallsEntries(tools, toJson, calls);
      |e| == 2 * |calls| && RecordsCall(tools, toJson, calls[k], e[2 * k], e[2 * k + 1])
  {
    CallsEntriesShape(tools, toJson, calls);
    CallsEntriesShape(tools, toJson, calls[1..]);
    var e, rest := CallsEntries(tools, toJson, calls), CallsEntries(tools, toJson, calls[1..]);
    assert e == CallEntries(tools, toJson, calls[0]) + rest;
    if k == 0 {
      RunToolIsResult(tools, calls[0]);
    } else {
      CallsEntriesAt(tools, toJson, calls[1..], k - 1);
      assert e[2 * k] == rest[2 * (k - 1)] && e[2 * k + 1] == rest[2 * (k - 1) + 1];
    }
  }

  lemma TurnIsRecorded(tools: Toolbox, toJson: (string, ToolResult) -> string, message: string, turn: Turn)
    ensures IsTurnRecord(tools, toJson, message, turn, TurnEntries(tools, toJson, message, turn))
  {
    var calls, e := CallsEntries(tools, toJson, turn.calls), TurnEntries(tools, toJson, message, turn);
    CallsEntriesShape(tools, toJson, turn.calls);
    forall k | 0 <= k < |turn.calls| ensures RecordsCall(tools, toJson, turn.calls[k], e[2 * k + 1], e[2 * k + 2]) {
      CallsEntriesAt(tools, toJson, turn.calls, k);
      assert e[2 * k + 1] == calls[2 * k] && e[2 * k + 2] == calls[2 * k + 1];
    }
  }

  // ---------- alternation ----------

  /** Roles strictly alternate, the user first. */
  ghost predicate Alternates(h: seq<Message>) {
    forall i :: 0 <= i < |h| ==> h[i].role == if i % 2 == 0 then User else Role.Model
  }

  /** ... and the model has had the last word. */
  ghost predicate Complete(h: seq<Message>) {
    Alternates(h) && |h| % 2 == 0
  }

  /** A turn adds 2 entries plus 2 per tool call when the model ends with text, one fewer
      otherwise, and keeps the alternation going either way; it leaves the history complete
      exactly when the model ended with text. */
  lemma TurnKeepsAlternation(tools: Toolbox, toJson: (string, ToolResult) -> string, h: seq<Message>, message: string, turn: Turn)
    requires Complete(h)
    ensures var g := h + TurnEntries(tools, toJson, message, turn);
      && |g| == |h| + 1 + 2 * |turn.calls| + (if Answered(turn) then 1 else 0)
      && Alternates(g)
      && (Complete(g) <==> Answered(turn))
  {
    CallsEntriesShape(tools, toJson, turn.calls);
    var g, calls := h + TurnEntries(tools, toJson, message, turn), CallsEntries(tools, toJson, turn.calls);
    forall i | 0 <= i < |g| ensures g[i].role == if i % 2 == 0 then User else Role.Model {
      var j := i - |h|;
      if j < 0 {
        assert g[i] == h[i];
      } else if 1 <= j <= |calls| {
        assert g[i] == calls[j - 1];
      }
    }
  }

  function Script(tools: Toolbox, toJson: (string, ToolResult) -> string, turns: seq<(string, Turn)>): seq<Message> {
    if turns == [] then []
    else TurnEntries(tools, toJson, turns[0].0, turns[0].1) + Script(tools, toJson, turns[1..])
  }

  /** Over a whole conversation the history alternates and ends with the model iff every turn
      ended with text. */
  lemma {:induction false} ConversationCompleteIff(tools: Toolbox, toJson: (string, ToolResult) -> string, h: seq<Message>, turns: seq<(string, Turn)>)
    requires Complete(h)
    ensures Complete(h + Script(tools, toJson, turns)) <==> forall t :: t in turns ==> Answered(t.1)
    decreases |turns|
  {
    if turns == [] {
      assert h + [] == h;
    } else {
      var (message, turn) := turns[0];
      var g := h + TurnEntries(tools, toJson, message, turn);
      TurnKeepsAlternation(tools, toJson, h, message, turn);
      assert h + Script(tools, toJson, turns) == g + Script(tools, toJson, turns[1..]);
      assert turns == [turns[0]] + turns[1..];
      if Answered(turn) {
        ConversationCompleteIff(tools, toJson, g, turns[1..]);
      } else {
        assert turns[0] in turns;
        StaysIncomplete(tools, toJson, g, turns[1..]);
      }
    }
  }

  lemma StaysIncomplete(tools: Toolbox, toJson: (string, ToolResult) -> string, g: seq<Message>, turns: seq<(string, Turn)>)
    requires |g| % 2 == 1
    ensures !Complete(g + Script(tools, toJson, turns))
  {
    var rest := Script(tools, toJson, turns);
    if turns == [] {
      assert g + rest == g;
    } else {
      assert rest[0] == TurnEntries(tools, toJson, turns[0].0, turns[0].1)[0];
      assert (g + rest)[|g|].role == User;
    }
  }

  /** The alternation itself breaks exactly when the user speaks again after a turn that did not
      end with text: every turn but the last must be answered. */
  lemma {:induction false} AlternatesIff(tools: Toolbox, toJson: (string, ToolResult) -> string, h: seq<Message>, turns: seq<(string, Turn)>)
    requires Complete(h)
    ensures Alternates(h + Script(tools, toJson, turns)) <==>
            forall i :: 0 <= i < |turns| - 1 ==> Answered(turns[i].1)
    decreases |turns|
  {
    if turns != [] {
      var (message, turn) := turns[0];
      var g := h + TurnEntries(tools, toJson, message, turn);
      var rest := Script(tools, toJson, turns[1..]);
      TurnKeepsAlternation(tools, toJson, h, message, turn);
      assert h + Script(tools, toJson, turns) == g + rest;
      if |turns| == 1 {
        assert rest == [] && g + rest == g;
      } else if Answered(turn) {
        AlternatesIff(tools, toJson, g, turns[1..]);
        AnsweredAfterFirst(turns);
      } else {
        TwoUserEntries(tools, toJson, g, turns[1..]);
      }
    }
  }

  lemma AnsweredAfterFirst(turns: seq<(string, Turn)>)
    requires |turns| > 1 && Answered(turns[0].1)
    ensures (forall i :: 0 <= i < |turns| - 1 ==> Answered(turns[i].1))
       <==> (forall i :: 0 <= i < |turns[1..]| - 1 ==> Answered(turns[1..][i].1))
  {
    assert forall i :: 1 <= i < |turns| ==> turns[i] == turns[1..][i - 1];
  }

  lemma TwoUserEntries(tools: Toolbox, toJson: (string, ToolResult) -> string, g: seq<Message>, turns: seq<(string, Turn)>)
    requires |g| % 2 == 1 && turns != []
    ensures !Alternates(g + Script(tools, toJson, turns))
  {
    var rest := Script(tools, toJson, turns);
    assert rest[0] == TurnEntries(tools, toJson, turns[0].0, turns[0].1)[0];
    assert (g + rest)[|g|].role == User;
  }

  /** A reply carries a signal iff the model ended with text and the last tool of the turn
      returned one; it is then that tool's signal. */
  lemma SignalIff(tools: Toolbox, turn: Turn)
    ensures var r := AnswerTo(tools, turn);
      (r.Replied? && r.signal.Some?) <==>
      Answered(turn) && turn.calls != [] && RunTool(tools, turn.calls[|turn.calls| - 1]).Signalled?
    ensures var r := AnswerTo(tools, turn);
      r.Replied? && r.signal.Some? ==> RunTool(tools, turn.calls[|turn.calls| - 1]) == Signalled(r.signal.value)
  {}
}
