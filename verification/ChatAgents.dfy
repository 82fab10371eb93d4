/** ChatAgent as an object: its volatile history and the persistent log it writes through to. */
module ChatAgents {
  import opened Common
  import opened ConversationLog
  import opened SubconversationTools
  import opened Protocol
  import opened Conversation

  /** `chatId` as the constructor settles it: a non-blank id is trimmed; otherwise one is
      generated if any memory is configured. */
  function ChosenChatId(chatId: Option<string>, generated: string, hasMemory: bool): (r: Option<string>)
    ensures r.None? <==> (chatId.None? || Trim(chatId.value) == "") && !hasMemory
    ensures chatId.Some? && Trim(chatId.value) != "" ==> r == Some(Trim(chatId.value))
    ensures (chatId.None? || Trim(chatId.value) == "") && hasMemory ==> r == Some(generated)
  {
    if chatId.Some? && Trim(chatId.value) != "" then Some(Trim(chatId.value))
    else if hasMemory then Some(generated)
    else None
  }

  class ChatAgent {
    const chatId: Option<string>
    const memory: SQLiteConversationMemoryAdapter?
    const tools: Toolbox
    const toJson: (string, ToolResult) -> string
    var context: string
    var conversationHistory: seq<Message>

    ghost function Footprint(): set<object> {
      {this} + if memory != null then {memory} else {}
    }

    ghost predicate Valid()
      reads Footprint()
    {
      memory != null ==> memory.Valid()
    }

    /** With a conversation memory and an id, the stored history is loaded. */
    constructor (chatId: Option<string>, generated: string, memory: SQLiteConversationMemoryAdapter?, otherMemory: bool,
                 tools: Toolbox, toJson: (string, ToolResult) -> string, context: string)
      requires memory != null ==> memory.Valid()
      ensures Valid()
      ensures this.chatId == ChosenChatId(chatId, generated, memory != null || otherMemory)
      ensures this.memory == memory && this.tools == tools && this.toJson == toJson && this.context == context
      ensures conversationHistory == if memory != null then Load(memory.rows, this.chatId.value) else []
    {
      this.chatId := ChosenChatId(chatId, generated, memory != null || otherMemory);
      this.memory := memory;
      this.tools := tools;
      this.toJson := toJson;
      this.context := context;
      this.conversationHistory := [];
      new;
      if this.memory != null && this.chatId.Some? {
        var history := this.memory.LoadHistory(this.chatId.value);
        conversationHistory := history;
      }
    }

    /** The chat this agent writes to grew by `entries`, and no other chat changed. */
    twostate predicate LogGrewBy(entries: seq<Message>)
      reads Footprint()
    {
      memory != null ==>
        && (chatId.Some? ==> Load(memory.rows, chatId.value) == old(Load(memory.rows, chatId.value)) + entries)
        && forall c :: chatId != Some(c) ==> Load(memory.rows, c) == old(Load(memory.rows, c))
    }

    method AddToConversationHistory(role: Role, content: string)
      requires Valid()
      modifies Footprint()
      ensures Valid() && context == old(context)
      ensures conversationHistory == old(conversationHistory) + [Message(role, content)]
      ensures LogGrewBy([Message(role, content)])
    {
      conversationHistory := conversationHistory + [Message(role, content)];
      if memory != null && chatId.Some? {
        memory.AppendMessage(chatId.value, role, content);
      }
    }

    /** One turn: the history and the chat's log both grow by exactly the turn's entries. */
    method ProcessUserMessage(message: string, turn: Turn) returns (answer: Outcome)
      requires Valid()
      modifies Footprint()
      ensures Valid() && context == old(context)
      ensures conversationHistory == old(conversationHistory) + TurnEntries(tools, toJson, message, turn)
      ensures LogGrewBy(TurnEntries(tools, toJson, message, turn))
      ensures answer == AnswerTo(tools, turn)
      ensures IsAnswer(tools, turn, answer)
      ensures IsTurnRecord(tools, toJson, message, turn, conversationHistory[|old(conversationHistory)|..])
    {
      AnswerIsAnswer(tools, turn);
      TurnIsRecorded(tools, toJson, message, turn);
      AddToConversationHistory(User, message);
      var lastToolResult := HandleCalls(turn.calls);
      answer := Conclude(turn.ending, lastToolResult);
      TurnInThree(old(conversationHistory), message, turn);
      if memory != null && chatId.Some? {
        TurnInThree(old(Load(memory.rows, chatId.value)), message, turn);
      }
    }

    lemma TurnInThree(h: seq<Message>, message: string, turn: Turn)
      ensures ((h + [Message(User, message)]) + CallsEntries(tools, toJson, turn.calls)) + FinalEntries(turn.ending)
           == h + TurnEntries(tools, toJson, message, turn)
    {
      var said, calls, last := [Message(User, message)], CallsEntries(tools, toJson, turn.calls), FinalEntries(turn.ending);
      Associate(h, said, calls);
      Associate(h, said + calls, last);
    }

    /** The tool loop. */
    method HandleCalls(calls: seq<FunctionCall>) returns (lastToolResult: Option<ToolResult>)
      requires Valid()
      modifies Footprint()
      ensures Valid() && context == old(context)
      ensures conversationHistory == old(conversationHistory) + CallsEntries(tools, toJson, calls)
      ensures LogGrewBy(CallsEntries(tools, toJson, calls))
      ensures lastToolResult == LastResult(tools, calls)
    {
      ghost var added := [];
      lastToolResult := None;
      var i := 0;
      while i < |calls|
        invariant 0 <= i <= |calls|
        invariant Valid() && context == old(context)
        invariant added == CallsEntries(tools, toJson, calls[..i])
        invariant conversationHistory == old(conversationHistory) + added
        invariant LogGrewBy(added)
        invariant lastToolResult == LastResult(tools, calls[..i])
      {
        var functionResult := HandleCall(calls[i]);
        lastToolResult := Some(functionResult);
        CallsEntriesGrow(tools, toJson, calls, i);
        ghost var more := CallEntries(tools, toJson, calls[i]);
        Associate(old(conversationHistory), added, more);
        if memory != null && chatId.Some? {
          Associate(old(Load(memory.rows, chatId.value)), added, more);
        }
        added := added + more;
        i := i + 1;
      }
      assert calls[..|calls|] == calls;
    }

    method HandleCall(call: FunctionCall) returns (functionResult: ToolResult)
      requires Valid()
      modifies Footprint()
      ensures Valid() && context == old(context)
      ensures conversationHistory == old(conversationHistory) + CallEntries(tools, toJson, call)
      ensures LogGrewBy(CallEntries(tools, toJson, call))
      ensures functionResult == RunTool(tools, call)
    {
      AddToConversationHistory(Role.Model, if call.text != "" then call.text else "[Function Call: " + call.name + "]");
      functionResult := ExecuteTool(call);
      AddToConversationHistory(User, "[Resultado da Função: " + call.name + "]\n" + toJson(call.name, functionResult));
    }

    /** After the loop: the final text joins the history and carries the last tool's signal. */
    method Conclude(ending: Ending, lastToolResult: Option<ToolResult>) returns (answer: Outcome)
      requires Valid()
      modifies Footprint()
      ensures Valid() && context == old(context)
      ensures conversationHistory == old(conversationHistory) + FinalEntries(ending)
      ensures LogGrewBy(FinalEntries(ending))
      ensures forall calls :: lastToolResult == LastResult(tools, calls) ==> answer == AnswerTo(tools, Turn(calls, ending))
    {
      match ending
      case Crash =>
        answer := Failed;
      case NoResponse =>
        answer := Replied(EMPTY_ANSWER, None);
      case Final(text) =>
        if text != "" {
          AddToConversationHistory(Role.Model, text);
        }
        if text != "" && lastToolResult.Some? && lastToolResult.value.Signalled? {
          answer := Replied(text, Some(lastToolResult.value.signal));
        } else {
          answer := Replied(text, None);
        }
    }

    method ExecuteTool(call: FunctionCall) returns (r: ToolResult)
      ensures r == RunTool(tools, call) && IsToolResult(tools, call, r)
    {
      if call.name !in tools {
        return Plain("Erro: Função '" + call.name + "' não encontrada nas tools do agente.");
      }
      match tools[call.name]
      case RequestTool => r := Signalled(RequestSpecialist(call.args));
      case EndTool => r := Signalled(EndSpecialist(call.args));
      case OwnTool =>
        match call.ownOutcome
        case Returned(x) => r := x;
        case Threw(m) => r := Plain("Erro ao executar a função '" + call.name + "': " + m);
    }

    /** Empties the volatile history and the chat's log. */
    method ClearHistory()
      requires Valid()
      modifies Footprint()
      ensures Valid() && context == old(context)
      ensures conversationHistory == []
      ensures memory != null ==> forall c :: Load(memory.rows, c) == if chatId == Some(c) then [] else old(Load(memory.rows, c))
    {
      conversationHistory := [];
      if memory != null && chatId.Some? {
        memory.ClearHistory(chatId.value);
      }
    }
  }
}
