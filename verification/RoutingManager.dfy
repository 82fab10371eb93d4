/**
 RoutingChatManager and the parts of ChatManager it builds on, as objects, for a client that
 waits for each call. Each method is tied to the transitions of `Protocol`.
 */
module RoutingManager {
  import opened Common
  import opened ConversationLog
  import opened SubconversationTools
  import opened Protocol
  import opened Conversation
  import opened ChatAgents

  class SessionState {
    const primaryAgent: ChatAgent
    var activeAgent: ChatAgent
    var activeSpecialistRole: Option<string>
    var specialistInstances: map<string, ChatAgent>
    var pendingSpecialistResult: Option<SpecialistResult>
    /** What has become of the results of this session's specialists. */
    ghost var fates: seq<Fate>

    constructor (primaryAgent: ChatAgent)
      ensures View() == NewSession(primaryAgent) && fates == []
      ensures primaryAgent.chatId.Some? ==> Valid(primaryAgent.chatId.value, primaryAgent.memory)
    {
      this.primaryAgent := primaryAgent;
      activeAgent := primaryAgent;
      activeSpecialistRole := None;
      specialistInstances := map[];
      pendingSpecialistResult := None;
      fates := [];
    }

    ghost function View(): Session<ChatAgent>
      reads this
    {
      Session(primaryAgent, activeAgent, activeSpecialistRole, specialistInstances, pendingSpecialistResult)
    }

    ghost function Agents(): set<ChatAgent>
      reads this
    {
      {primaryAgent} + specialistInstances.Values
    }

    /** All agents of the session write to the same chat of the same memory. */
    ghost predicate SharesChat(chat: string, memory: SQLiteConversationMemoryAdapter?)
      reads this
    {
      forall a :: a in Agents() ==> a.chatId == Some(chat) && a.memory == memory
    }

    ghost predicate Valid(chat: string, memory: SQLiteConversationMemoryAdapter?)
      reads this
    {
      && AtRest(View())
      && Conserved(View(), fates)
      && NothingOverwritten(fates)
      && SharesChat(chat, memory)
    }
  }

  /** A registered specialist; `buildable` is whether constructing it succeeds. */
  datatype SpecialistConfig = SpecialistConfig(context: string, tools: Toolbox, buildable: bool)

  /** The tool list with one more at the end: an earlier tool of the same name is found first. */
  function WithTool(tools: Toolbox, name: string, tool: Tool): (r: Toolbox)
    ensures name in r && r[name] == (if name in tools then tools[name] else tool)
    ensures forall n :: n != name ==> (n in r <==> n in tools) && (n in r ==> r[n] == tools[n])
  {
    if name in tools then tools else tools[name := tool]
  }

  /** What a session may be opened with: its own tools and context, which replace the configured ones. */
  datatype SessionOptions = SessionOptions(tools: Option<Toolbox>, context: Option<string>)

  function OrElse<T>(v: Option<T>, default: T): (r: T)
    ensures v.Some? ==> v == Some(r)
    ensures v.None? ==> r == default
  {
    if v.Some? then v.value else default
  }

  /** A specialist's context once an initial one has been handed over. */
  function ExtendedContext(context: string, initial: Option<string>): string {
    if initial.None? then context
    else if context != "" then context + "\n\n" + initial.value
    else initial.value
  }

  /** The wording of the two notes that hand a specialist's result to the primary agent together
      with the user's message: for a result left waiting by an earlier call, and for one handed
      over within the call that ended the sub-conversation. */
  datatype NoteWording = NoteWording(
    forPending: (SpecialistResult, string) -> string,
    forEnd: (SpecialistResult, string) -> string)

  /** The message the chosen agent gets: the user's, preceded by the note on a pending result. */
  function FirstMessage(notes: NoteWording, s: Session<ChatAgent>, message: string): string {
    if s.pending.Some? then notes.forPending(s.pending.value, message) else message
  }

  /** The message for the agent asked next, if one is: a specialist taking over gets the user's
      own words, the primary getting back control the note with them. `s` is the session when
      the first agent answered, `t` the session at the end of the call. */
  function SecondMessage(notes: NoteWording, s: Session<ChatAgent>, asked: ChatAgent, first: Outcome,
                         t: Session<ChatAgent>, message: string): Option<string> {
    match first
    case Replied(_, Some(RequestSubConversation(_))) => if t.active != t.primary then Some(message) else None
    case Replied(_, Some(EndSubConversation(d))) =>
      if asked != s.primary then Some(notes.forEnd(SpecialistResult(s.role, d), message)) else None
    case _ => None
  }

  /** What an agent's turn on an optional message adds to the chat. */
  function EntriesOf(agent: ChatAgent, message: Option<string>, turn: Turn): seq<Message> {
    if message.Some? then TurnEntries(agent.tools, agent.toJson, message.value, turn) else []
  }

  class RoutingChatManager {
    const memory: SQLiteConversationMemoryAdapter?
    const baseTools: Toolbox
    const baseContext: string
    const registry: map<string, SpecialistConfig>
    const toJson: (string, ToolResult) -> string
    const notes: NoteWording
    var activeSessions: map<string, ChatAgent>
    var sessionStates: map<string, SessionState>

    constructor (memory: SQLiteConversationMemoryAdapter?, tools: Toolbox, context: string,
                 registry: map<string, SpecialistConfig>, toJson: (string, ToolResult) -> string, notes: NoteWording)
      requires memory != null ==> memory.Valid()
      ensures Valid() && this.memory == memory && this.registry == registry
      ensures sessionStates == map[] && activeSessions == map[]
    {
      this.memory := memory;
      baseTools := tools;
      baseContext := context;
      this.registry := registry;
      this.toJson := toJson;
      this.notes := notes;
      activeSessions := map[];
      sessionStates := map[];
    }

    ghost function MemoryObjects(): set<object> {
      if memory != null then {memory} else {}
    }

    ghost predicate Valid()
      reads this, sessionStates.Values, MemoryObjects()
    {
      && (memory != null ==> memory.Valid())
      && (forall s :: s in sessionStates ==> Trim(s) != "" && sessionStates[s].Valid(Trim(s), memory))
      && (forall s, t :: s in sessionStates && t in sessionStates && s != t ==> sessionStates[s] != sessionStates[t])
      && (forall k :: k in activeSessions ==> activeSessions[k].chatId == Some(k) && activeSessions[k].memory == memory)
    }

    /** Everything that belongs to one session. */
    ghost function SessionObjects(sessionId: string): set<object>
      reads this, sessionStates.Values
    {
      (if sessionId in sessionStates then {sessionStates[sessionId]} + sessionStates[sessionId].Agents() else {})
      + (if Trim(sessionId) in activeSessions then {activeSessions[Trim(sessionId)]} else {})
    }

    /** No chat but the session's own was touched. */
    twostate predicate OtherChatsKept(sessionId: string)
      reads MemoryObjects()
    {
      memory != null ==> forall c :: c != Trim(sessionId) ==> Load(memory.rows, c) == old(Load(memory.rows, c))
    }

    /** No other session was opened, closed or replaced. */
    twostate predicate OtherSessionsKept(sessionId: string)
      reads this
    {
      forall s :: s != sessionId ==>
        (s in sessionStates <==> s in old(sessionStates)) &&
        (s in sessionStates ==> sessionStates[s] == old(sessionStates)[s])
    }

    /** The chat grew by exactly these entries; no other chat changed. */
    twostate predicate ChatGrewBy(chat: string, entries: seq<Message>)
      reads MemoryObjects()
    {
      memory != null ==>
        && Load(memory.rows, chat) == old(Load(memory.rows, chat)) + entries
        && forall c :: c != chat ==> Load(memory.rows, c) == old(Load(memory.rows, c))
    }

    /** Every agent's own history is what is left of the shared log after deleting some of it. */
    ghost predicate CopiesIn(state: SessionState, chat: string)
      reads state, state.Agents(), MemoryObjects()
    {
      memory != null ==>
        forall a :: a in state.Agents() ==> Subsequence(a.conversationHistory, Load(memory.rows, chat))
    }

    twostate predicate CopiesKept(state: SessionState, chat: string)
      reads state, state.Agents(), MemoryObjects()
    {
      old(CopiesIn(state, chat)) ==> CopiesIn(state, chat)
    }

    predicate Available(role: string) {
      role in registry && registry[role].buildable
    }

    /** ChatManager.getOrCreateSession, for an id that is not blank. */
    method GetOrCreateSession(sessionId: string, options: SessionOptions) returns (agent: ChatAgent)
      requires Valid() && Trim(sessionId) != ""
      modifies this`activeSessions
      ensures Valid() && activeSessions == old(activeSessions)[Trim(sessionId) := agent]
      ensures agent.chatId == Some(Trim(sessionId)) && agent.memory == memory
      ensures if Trim(sessionId) in old(activeSessions) then agent == old(activeSessions)[Trim(sessionId)] else fresh(agent)
      ensures Trim(sessionId) !in old(activeSessions) ==>
        && agent.tools == OrElse(options.tools, baseTools) && agent.context == OrElse(options.context, baseContext)
        && (memory != null ==> agent.conversationHistory == Load(memory.rows, Trim(sessionId)))
    {
      var trimmed := Trim(sessionId);
      if trimmed in activeSessions {
        agent := activeSessions[trimmed];
        assert activeSessions == activeSessions[trimmed := agent];
      } else {
        TrimIdempotent(sessionId);
        agent := new ChatAgent(Some(trimmed), "", memory, false, OrElse(options.tools, baseTools), toJson,
                               OrElse(options.context, baseContext));
        activeSessions := activeSessions[trimmed := agent];
      }
    }

    /** The options a coordinator is built with: the session's own tools, never the configured
        ones, and the tool that requests a specialist. */
    function CoordinatorOptions(options: SessionOptions): (r: SessionOptions)
      ensures r.tools.Some? && "request_specialist_sub_conversation" in r.tools.value && r.context == options.context
      ensures "request_specialist_sub_conversation" !in OrElse(options.tools, map[]) ==>
        r.tools.value["request_specialist_sub_conversation"] == RequestTool
      ensures forall n :: n in OrElse(options.tools, map[]) ==>
        n in r.tools.value && r.tools.value[n] == OrElse(options.tools, map[])[n]
    {
      options.(tools := Some(WithTool(OrElse(options.tools, map[]), "request_specialist_sub_conversation", RequestTool)))
    }

    /** `getOrCreateSessionState`, for an id that is not blank. States are kept under the id as
        given, agents under the trimmed one. */
    method GetOrCreateSessionState(sessionId: string, options: SessionOptions) returns (state: SessionState)
      requires Valid() && Trim(sessionId) != ""
      modifies this
      ensures Valid() && OtherSessionsKept(sessionId)
      ensures sessionId in sessionStates && sessionStates[sessionId] == state
      ensures old(sessionId in sessionStates && CopiesIn(sessionStates[sessionId], Trim(sessionId))) ==> CopiesIn(state, Trim(sessionId))
      ensures if sessionId in old(sessionStates) then state == old(sessionStates)[sessionId]
              else fresh(state) && state.View() == NewSession(state.primaryAgent)
      ensures sessionId in old(sessionStates) ==> activeSessions == old(activeSessions)
      ensures sessionId !in old(sessionStates) ==>
        activeSessions == old(activeSessions)[Trim(sessionId) := state.primaryAgent]
      ensures sessionId !in old(sessionStates) && Trim(sessionId) in old(activeSessions) ==>
        state.primaryAgent == old(activeSessions)[Trim(sessionId)]
      ensures sessionId !in old(sessionStates) && Trim(sessionId) !in old(activeSessions) ==>
        && fresh(state.primaryAgent)
        && state.primaryAgent.tools == CoordinatorOptions(options).tools.value
        && state.primaryAgent.context == OrElse(options.context, baseContext)
        && CopiesIn(state, Trim(sessionId))
    {
      if sessionId in sessionStates {
        return sessionStates[sessionId];
      }
      state := OpenSession(sessionId, options);
      OpenedInStep(state, Trim(sessionId));
    }

    /** Empty copies are in step with any log. */
    lemma ClearedInStep(state: SessionState, chat: string)
      requires forall a :: a in state.Agents() ==> a.conversationHistory == []
      ensures CopiesIn(state, chat)
    {}

    /** A state around the session's coordinator, which is built if there is none. */
    method OpenSession(sessionId: string, options: SessionOptions) returns (state: SessionState)
      requires Valid() && Trim(sessionId) != "" && sessionId !in sessionStates
      modifies this
      ensures Valid() && sessionStates == old(sessionStates)[sessionId := state]
      ensures fresh(state) && state.View() == NewSession(state.primaryAgent)
      ensures activeSessions == old(activeSessions)[Trim(sessionId) := state.primaryAgent]
      ensures Trim(sessionId) in old(activeSessions) ==> state.primaryAgent == old(activeSessions)[Trim(sessionId)]
      ensures Trim(sessionId) !in old(activeSessions) ==>
        && fresh(state.primaryAgent)
        && state.primaryAgent.tools == CoordinatorOptions(options).tools.value
        && state.primaryAgent.context == OrElse(options.context, baseContext)
        && (memory != null ==> state.primaryAgent.conversationHistory == Load(memory.rows, Trim(sessionId)))
    {
      var agent := GetOrCreateSession(sessionId, CoordinatorOptions(options));
      state := OpenState(sessionId, agent);
    }

    /** A new session is in step when its coordinator has just loaded its history. */
    lemma OpenedInStep(state: SessionState, chat: string)
      ensures state.specialistInstances == map[]
              && (memory != null ==> state.primaryAgent.conversationHistory == Load(memory.rows, chat))
              ==> CopiesIn(state, chat)
    {
      if memory != null {
        SubsequenceSelf(Load(memory.rows, chat));
      }
    }

    method OpenState(sessionId: string, agent: ChatAgent) returns (state: SessionState)
      requires Valid() && Trim(sessionId) != "" && sessionId !in sessionStates
      requires agent.chatId == Some(Trim(sessionId)) && agent.memory == memory
      modifies this`sessionStates
      ensures Valid() && sessionStates == old(sessionStates)[sessionId := state]
      ensures fresh(state) && state.View() == NewSession(agent)
    {
      state := new SessionState(agent);
      forall s | s in sessionStates ensures sessionStates[s].Valid(Trim(s), memory) && sessionStates[s] != state {
      }
      sessionStates := sessionStates[sessionId := state];
    }

    /** `_startSubConversation`: reuses or builds the specialist, extends its context, and puts
        it in control; on failure control is the primary's again. */
    method StartSubConversation(state: SessionState, request: Request, ghost chat: string)
      requires memory != null ==> memory.Valid()
      requires state.SharesChat(chat, memory) && Trim(chat) == chat && chat != ""
      modifies state, state.Agents()
      ensures memory != null ==> memory.Valid()
      ensures state.SharesChat(chat, memory)
      ensures state.View() == StartSub(old(state.View()), request.role, Available(request.role), state.activeAgent)
      ensures state.fates == old(state.fates)
      ensures request.role !in old(state.specialistInstances) && Available(request.role) ==> fresh(state.activeAgent)
      ensures state.activeAgent in state.Agents()
      ensures state.activeAgent in old(state.Agents()) || fresh(state.activeAgent)
      ensures forall a :: a in old(state.Agents()) ==> a.conversationHistory == old(a.conversationHistory)
      ensures request.role in old(state.specialistInstances) ==>
        state.activeAgent.context == ExtendedContext(old(state.specialistInstances[request.role].context), request.initialContext)
      ensures request.role !in old(state.specialistInstances) && Available(request.role) ==>
        && state.activeAgent.context == ExtendedContext(registry[request.role].context, request.initialContext)
        && state.activeAgent.tools == SpecialistTools(request.role)
      ensures CopiesKept(state, chat)
    {
      if request.role !in state.specialistInstances && !Available(request.role) {
        state.activeAgent := state.primaryAgent;
        state.activeSpecialistRole := None;
        return;
      }
      if request.role !in state.specialistInstances {
        BuildSpecialist(state, request.role, chat);
        if memory != null {
          SubsequenceSelf(Load(memory.rows, chat));
        }
      }
      var specialist := state.specialistInstances[request.role];
      assert specialist in state.specialistInstances.Values;
      ExtendContext(specialist, request.initialContext);
      state.activeAgent := specialist;
      state.activeSpecialistRole := Some(request.role);
    }

    /** Adds the initial context of the request to the specialist's own. */
    method ExtendContext(specialist: ChatAgent, initial: Option<string>)
      modifies specialist`context
      ensures specialist.context == ExtendedContext(old(specialist.context), initial)
      ensures initial.None? ==> specialist.context == old(specialist.context)
      ensures initial.Some? && old(specialist.context) == "" ==> specialist.context == initial.value
      ensures initial.Some? && old(specialist.context) != "" ==>
        specialist.context == old(specialist.context) + "\n\n" + initial.value
    {
      if initial.Some? && specialist.context != "" {
        specialist.context := specialist.context + "\n\n" + initial.value;
      } else if initial.Some? {
        specialist.context := initial.value;
      }
    }

    /** A specialist's tools: its registered ones and the tool that ends the sub-conversation. */
    function SpecialistTools(role: string): (r: Toolbox)
      requires role in registry
      ensures "end_specialist_sub_conversation" in r
      ensures "end_specialist_sub_conversation" !in registry[role].tools ==> r["end_specialist_sub_conversation"] == EndTool
      ensures forall n :: n in registry[role].tools ==> n in r && r[n] == registry[role].tools[n]
    {
      WithTool(registry[role].tools, "end_specialist_sub_conversation", EndTool)
    }

    /** A new specialist of the role, on the session's chat. */
    method BuildSpecialist(state: SessionState, role: string, ghost chat: string)
      requires memory != null ==> memory.Valid()
      requires state.SharesChat(chat, memory) && Trim(chat) == chat && chat != ""
      requires role !in state.specialistInstances && Available(role)
      modifies state`specialistInstances
      ensures role in state.specialistInstances && fresh(state.specialistInstances[role])
      ensures state.specialistInstances == old(state.specialistInstances)[role := state.specialistInstances[role]]
      ensures state.SharesChat(chat, memory)
      ensures var specialist := state.specialistInstances[role];
        && specialist.context == registry[role].context && specialist.tools == SpecialistTools(role)
        && (memory != null ==> specialist.conversationHistory == Load(memory.rows, chat))
    {
      var config := registry[role];
      assert state.primaryAgent in state.Agents();
      var specialist := new ChatAgent(state.primaryAgent.chatId, "", memory, false, SpecialistTools(role), toJson, config.context);
      state.specialistInstances := state.specialistInstances[role := specialist];
    }

    /** `_endSubConversation`: the result becomes pending and the primary is in control again. */
    method EndSubConversation(state: SessionState, details: EndDetails)
      modifies state
      ensures state.View() == EndSub(old(state.View()), details)
      ensures state.fates == old(state.fates) + Replacing(old(state.View()), details)
    {
      state.fates := state.fates + Replacing(state.View(), details);
      state.pendingSpecialistResult := Some(SpecialistResult(state.activeSpecialistRole, details));
      state.activeAgent := state.primaryAgent;
      state.activeSpecialistRole := None;
    }

    /** Lets one agent of the session answer: its own history grows with the log, the others' stay
        behind. */
    method Ask(state: SessionState, agent: ChatAgent, message: string, turn: Turn, ghost chat: string) returns (o: Outcome)
      requires memory != null ==> memory.Valid()
      requires agent.chatId == Some(chat) && agent.memory == memory
      modifies agent, MemoryObjects()
      ensures memory != null ==> memory.Valid()
      ensures o == AnswerTo(agent.tools, turn)
      ensures agent.conversationHistory == old(agent.conversationHistory) + TurnEntries(agent.tools, agent.toJson, message, turn)
      ensures ChatGrewBy(chat, TurnEntries(agent.tools, agent.toJson, message, turn))
      ensures CopiesKept(state, chat)
    {
      o := agent.ProcessUserMessage(message, turn);
      if memory != null && old(CopiesIn(state, chat)) {
        ghost var entries := TurnEntries(agent.tools, agent.toJson, message, turn);
        forall a | a in state.Agents() ensures Subsequence(a.conversationHistory, Load(memory.rows, chat)) {
          SubsequenceGrows(old(a.conversationHistory), old(Load(memory.rows, chat)), entries);
        }
      }
    }

    /** A REQUEST signal: the specialist takes over and answers the user's message at once. */
    method HandleRequest(state: SessionState, request: Request, message: string, second: Turn, ghost chat: string)
      returns (answer: Answer<ChatAgent>)
      requires memory != null ==> memory.Valid()
      requires state.SharesChat(chat, memory) && Trim(chat) == chat && chat != ""
      modifies state, state.Agents(), MemoryObjects()
      ensures memory != null ==> memory.Valid()
      ensures state.SharesChat(chat, memory)
      ensures state.View() == StartSub(old(state.View()), request.role, Available(request.role), state.activeAgent)
      ensures state.fates == old(state.fates)
      ensures request.role !in old(state.specialistInstances) && Available(request.role) ==> fresh(state.activeAgent)
      ensures answer == if state.activeAgent != state.primaryAgent
                        then AnswerOf(state.activeAgent, AnswerTo(state.activeAgent.tools, second)) else ErrorText
      ensures ChatGrewBy(chat, if state.activeAgent != state.primaryAgent then EntriesOf(state.activeAgent, Some(message), second) else [])
      ensures CopiesKept(state, chat)
    {
      StartSubConversation(state, request, chat);
      var specialist := state.activeAgent;
      if specialist == state.primaryAgent {
        return ErrorText;
      }
      var o := Ask(state, specialist, message, second, chat);
      answer := AnswerOf(specialist, o);
    }

    /** An END signal from a specialist: its result goes straight to the primary agent. */
    method HandleEnd(state: SessionState, details: EndDetails, message: string, second: Turn, ghost chat: string)
      returns (answer: Answer<ChatAgent>)
      requires memory != null ==> memory.Valid()
      requires state.SharesChat(chat, memory)
      modifies state, state.Agents(), MemoryObjects()
      ensures memory != null ==> memory.Valid()
      ensures state.SharesChat(chat, memory)
      ensures var ended := EndSub(old(state.View()), details);
        && state.View() == TakePending(ended)
        && state.fates == old(state.fates) + Replacing(old(state.View()), details) + PendingNote(ended)
        && answer == AnswerOf(state.primaryAgent, AnswerTo(state.primaryAgent.tools, second))
      ensures ChatGrewBy(chat, EntriesOf(state.primaryAgent, Some(notes.forEnd(SpecialistResult(old(state.activeSpecialistRole), details), message)), second))
      ensures CopiesKept(state, chat)
    {
      EndSubConversation(state, details);
      if state.pendingSpecialistResult.None? {
        return ResultMissingText;
      }
      var result := state.pendingSpecialistResult.value;
      state.fates := state.fates + PendingNote(state.View());
      state.pendingSpecialistResult := None;
      assert state.primaryAgent in state.Agents();
      var o := Ask(state, state.primaryAgent, notes.forEnd(result, message), second, chat);
      answer := AnswerOf(state.primaryAgent, o);
    }

    /** Chooses the agent for a message and, when a result is pending, prepends its note. */
    method ChooseAgent(state: SessionState, message: string) returns (agent: ChatAgent, messageForAgent: string)
      modifies state
      ensures agent == Chosen(old(state.View()))
      ensures state.View() == TakePending(old(state.View()))
      ensures state.fates == old(state.fates) + PendingNote(old(state.View()))
      ensures messageForAgent == if old(state.pendingSpecialistResult).Some?
                                 then notes.forPending(old(state.pendingSpecialistResult).value, message) else message
    {
      state.fates := state.fates + PendingNote(state.View());
      if state.pendingSpecialistResult.Some? {
        agent := state.primaryAgent;
        messageForAgent := notes.forPending(state.pendingSpecialistResult.value, message);
        state.pendingSpecialistResult := None;
      } else {
        agent, messageForAgent := state.activeAgent, message;
      }
    }

    /** Everything a call adds to the session's chat, from the session before it and after it. */
    ghost function CallEntries(s: Session<ChatAgent>, t: Session<ChatAgent>, message: string, first: Turn, second: Turn): seq<Message> {
      var asked := Chosen(s);
      EntriesOf(asked, Some(FirstMessage(notes, s, message)), first)
      + EntriesOf(t.active, SecondMessage(notes, TakePending(s), asked, AnswerTo(asked.tools, first), t, message), second)
    }

    /** What a call with these turns answers and does, case by case. */
    ghost predicate CallShown(s: Session<ChatAgent>, t: Session<ChatAgent>, first: Turn, second: Turn, answer: Answer<ChatAgent>) {
      var asked := if s.pending.Some? then s.primary else s.active;
      var o1, o2 := AnswerTo(asked.tools, first), AnswerTo(t.active.tools, second);
      Answers(s, asked, o1, Available, t.active, o2, answer) && HandsOver(s, asked, o1, Available, t.active, t)
    }

    /** Acts on what the agent asked has come back with. */
    method ActOn(state: SessionState, agent: ChatAgent, o: Outcome, message: string, second: Turn, ghost chat: string)
      returns (answer: Answer<ChatAgent>)
      requires memory != null ==> memory.Valid()
      requires state.SharesChat(chat, memory) && Trim(chat) == chat && chat != ""
      modifies state, state.Agents(), MemoryObjects()
      ensures memory != null ==> memory.Valid()
      ensures state.SharesChat(chat, memory)
      ensures var end := Act(old(state.View()), agent, o, Available, state.activeAgent, AnswerTo(state.activeAgent.tools, second));
        state.View() == end.session && answer == end.answer && state.fates == old(state.fates) + end.fates
      ensures o.Replied? && o.signal.Some? && o.signal.value.RequestSubConversation? ==>
        var role := o.signal.value.request.role;
        role !in old(state.specialistInstances) && Available(role) ==> fresh(state.activeAgent)
      ensures ChatGrewBy(chat,
        EntriesOf(state.activeAgent, SecondMessage(notes, old(state.View()), agent, o, state.View(), message), second))
      ensures CopiesKept(state, chat)
    {
      match o
      case Failed =>
        answer := ErrorText;
      case Replied(_, Some(RequestSubConversation(r))) =>
        answer := HandleRequest(state, r, message, second, chat);
      case Replied(_, Some(EndSubConversation(d))) =>
        if agent != state.primaryAgent {
          answer := HandleEnd(state, d, message, second, chat);
        } else {
          EndSubConversation(state, d);
          answer := Said(agent, o);
        }
      case Replied(_, _) =>
        answer := Said(agent, o);
    }

    /** `processMessage` once the state is at hand: exactly the protocol's `Call`, so the state
        stays at rest and balanced, and whoever's words are returned is in control. */
    method ProcessInState(state: SessionState, message: string, first: Turn, second: Turn, ghost chat: string)
      returns (answer: Answer<ChatAgent>)
      requires memory != null ==> memory.Valid()
      requires state.Valid(chat, memory) && Trim(chat) == chat && chat != ""
      modifies state, state.Agents(), MemoryObjects()
      ensures memory != null ==> memory.Valid()
      ensures var end := Call(old(state.View()), AnswerTo(old(Chosen(state.View())).tools, first), Available,
                              state.activeAgent, AnswerTo(state.activeAgent.tools, second));
        state.View() == end.session && answer == end.answer && state.fates == old(state.fates) + end.fates
      ensures state.Valid(chat, memory)
      ensures answer.Said? ==> answer.speaker == state.activeAgent
      ensures !answer.ResultMissingText?
      ensures CallShown(old(state.View()), state.View(), first, second, answer)
      ensures ChatGrewBy(chat, CallEntries(old(state.View()), state.View(), message, first, second))
      ensures CopiesKept(state, chat)
    {
      ghost var view, fates := state.View(), state.fates;
      ghost var o: Outcome;
      answer, o := AskAndAct(state, message, first, second, chat);
      Settle(view, fates, state, o, AnswerTo(state.activeAgent.tools, second));
    }

    method AskAndAct(state: SessionState, message: string, first: Turn, second: Turn, ghost chat: string)
      returns (answer: Answer<ChatAgent>, ghost o: Outcome)
      requires memory != null ==> memory.Valid()
      requires Consistent(state.View()) && state.SharesChat(chat, memory) && Trim(chat) == chat && chat != ""
      modifies state, state.Agents(), MemoryObjects()
      ensures memory != null ==> memory.Valid()
      ensures state.SharesChat(chat, memory)
      ensures o == AnswerTo(old(Chosen(state.View())).tools, first)
      ensures FitsCall(old(state.View()), o, Available, state.activeAgent)
      ensures var end := Call(old(state.View()), o, Available, state.activeAgent, AnswerTo(state.activeAgent.tools, second));
        state.View() == end.session && answer == end.answer && state.fates == old(state.fates) + end.fates
      ensures ChatGrewBy(chat, CallEntries(old(state.View()), state.View(), message, first, second))
      ensures CopiesKept(state, chat)
    {
      ghost var view, fates := state.View(), state.fates;
      ghost var before := if memory != null then Load(memory.rows, chat) else [];
      var agent, reply := AskChosen(state, message, first, chat);
      o := reply;
      answer := ActOn(state, agent, reply, message, second, chat);
      CallSplits(view, fates, o, Available, state.activeAgent, AnswerTo(state.activeAgent.tools, second));
      Associate(before, EntriesOf(agent, Some(FirstMessage(notes, view, message)), first),
        EntriesOf(state.activeAgent, SecondMessage(notes, TakePending(view), agent, o, state.View(), message), second));
    }

    /** The first half of a call: the chosen agent answers the message. */
    method AskChosen(state: SessionState, message: string, first: Turn, ghost chat: string)
      returns (agent: ChatAgent, o: Outcome)
      requires memory != null ==> memory.Valid()
      requires Consistent(state.View()) && state.SharesChat(chat, memory)
      modifies state, state.Agents(), MemoryObjects()
      ensures memory != null ==> memory.Valid()
      ensures agent == Chosen(old(state.View())) && o == AnswerTo(agent.tools, first)
      ensures state.View() == TakePending(old(state.View()))
      ensures state.fates == old(state.fates) + PendingNote(old(state.View()))
      ensures ChatGrewBy(chat, EntriesOf(agent, Some(FirstMessage(notes, old(state.View()), message)), first))
      ensures CopiesKept(state, chat)
    {
      ghost var view := state.View();
      assert Chosen(view) in state.Agents() by {
        if view.role.Some? {
          assert view.specialists[view.role.value] in view.specialists.Values;
        }
      }
      var messageForAgent;
      agent, messageForAgent := ChooseAgent(state, message);
      o := Ask(state, agent, messageForAgent, first, chat);
    }

    ghost method Settle(view: Session<ChatAgent>, fates: seq<Fate>, state: SessionState, o: Outcome, o2: Outcome)
      requires AtRest(view) && Conserved(view, fates) && NothingOverwritten(fates)
      requires FitsCall(view, o, Available, state.activeAgent)
      requires var end := Call(view, o, Available, state.activeAgent, o2);
        state.View() == end.session && state.fates == fates + end.fates
      ensures AtRest(state.View()) && Conserved(state.View(), state.fates) && NothingOverwritten(state.fates)
      ensures var end := Call(view, o, Available, state.activeAgent, o2);
        (end.answer.Said? ==> end.answer.speaker == state.activeAgent) && !end.answer.ResultMissingText?
      ensures Answers(view, Chosen(view), o, Available, state.activeAgent, o2, Call(view, o, Available, state.activeAgent, o2).answer)
      ensures HandsOver(view, Chosen(view), o, Available, state.activeAgent, state.View())
    {
      CallAnswers(view, Chosen(view), o, Available, state.activeAgent, o2);
      CallConserves(view, fates, o, Available, state.activeAgent, o2);
      WhoSpeaksHearsNext(view, o, Available, state.activeAgent, o2);
    }

    /** `processMessage`. A blank id is an error. Otherwise the session's state moves as the
        protocol says, other sessions and other chats are untouched, and the agent whose
        words are returned is the one in control. The session's agents keep copies of the log with
        nothing in them but entries of the log, in order. */
    method ProcessMessage(sessionId: string, message: string, options: SessionOptions, first: Turn, second: Turn)
      returns (answer: Answer<ChatAgent>)
      requires Valid()
      modifies this, SessionObjects(sessionId), MemoryObjects()
      ensures Valid()
      ensures OtherChatsKept(sessionId) && OtherSessionsKept(sessionId)
      ensures Trim(sessionId) == "" ==> answer.ErrorText? && unchanged(this)
      ensures Trim(sessionId) != "" ==> sessionId in sessionStates
      ensures answer.Said? ==> sessionId in sessionStates && answer.speaker == sessionStates[sessionId].activeAgent
      ensures !answer.ResultMissingText?
      ensures sessionId in old(sessionStates) ==> activeSessions == old(activeSessions)
      ensures sessionId !in old(sessionStates) && Trim(sessionId) != "" ==>
        activeSessions == old(activeSessions)[Trim(sessionId) := sessionStates[sessionId].primaryAgent]
      ensures sessionId in old(sessionStates) ==>
        var state := old(sessionStates)[sessionId];
        var end := Call(old(state.View()), AnswerTo(old(Chosen(state.View())).tools, first), Available,
                        state.activeAgent, AnswerTo(state.activeAgent.tools, second));
        && sessionStates[sessionId] == state && state.View() == end.session && answer == end.answer
        && ChatGrewBy(Trim(sessionId), CallEntries(old(state.View()), state.View(), message, first, second))
      ensures sessionId !in old(sessionStates) && Trim(sessionId) != "" ==>
        var state := sessionStates[sessionId];
        var start := NewSession(state.primaryAgent);
        var end := Call(start, AnswerTo(state.primaryAgent.tools, first), Available,
                        state.activeAgent, AnswerTo(state.activeAgent.tools, second));
        && state.View() == end.session && answer == end.answer
        && ChatGrewBy(Trim(sessionId), CallEntries(start, state.View(), message, first, second))
      ensures sessionId in old(sessionStates) ==>
        CallShown(old(sessionStates[sessionId].View()), sessionStates[sessionId].View(), first, second, answer)
      ensures sessionId !in old(sessionStates) && Trim(sessionId) != "" ==>
        CallShown(NewSession(sessionStates[sessionId].primaryAgent), sessionStates[sessionId].View(), first, second, answer)
      ensures old(sessionId in sessionStates && CopiesIn(sessionStates[sessionId], Trim(sessionId))) ==>
        CopiesIn(sessionStates[sessionId], Trim(sessionId))
      ensures sessionId !in old(sessionStates) && Trim(sessionId) != "" && Trim(sessionId) !in old(activeSessions) ==>
        CopiesIn(sessionStates[sessionId], Trim(sessionId))
    {
      if Trim(sessionId) == "" {
        return ErrorText;
      }
      var state := GetOrCreateSessionState(sessionId, options);
      answer := ProcessInSession(sessionId, state, message, first, second);
    }

    method ProcessInSession(sessionId: string, state: SessionState, message: string, first: Turn, second: Turn)
      returns (answer: Answer<ChatAgent>)
      requires Valid() && sessionId in sessionStates && sessionStates[sessionId] == state
      modifies state, state.Agents(), MemoryObjects()
      ensures Valid()
      ensures ChatGrewBy(Trim(sessionId), CallEntries(old(state.View()), state.View(), message, first, second))
      ensures answer.Said? ==> answer.speaker == state.activeAgent
      ensures !answer.ResultMissingText?
      ensures CallShown(old(state.View()), state.View(), first, second, answer)
      ensures var end := Call(old(state.View()), AnswerTo(old(Chosen(state.View())).tools, first), Available,
                              state.activeAgent, AnswerTo(state.activeAgent.tools, second));
        state.View() == end.session && answer == end.answer
      ensures CopiesKept(state, Trim(sessionId))
    {
      ghost var chat := Trim(sessionId);
      TrimmedChat(sessionId, chat);
      answer := ProcessInState(state, message, first, second, chat);
      assert Valid() by { StillValid(sessionId); }
    }

    /** The copies of a session whose agents and log did not change are as close to it as they were. */
    twostate lemma OtherCopiesKept(s: string)
      requires s in old(sessionStates) && s in sessionStates && sessionStates[s] == old(sessionStates)[s]
      requires unchanged(sessionStates[s])
      requires memory != null ==> Load(memory.rows, Trim(s)) == old(Load(memory.rows, Trim(s)))
      requires forall a :: a in old(sessionStates[s].Agents()) ==> a.conversationHistory == old(a.conversationHistory)
      ensures CopiesKept(sessionStates[s], Trim(s))
    {
      assert sessionStates[s].Agents() == old(sessionStates[s].Agents());
    }

    /** Sessions with different chats have no agent in common. */
    lemma OtherAgentsApart(sessionId: string)
      requires Valid() && sessionId in sessionStates
      ensures forall s :: s in sessionStates && Trim(s) != Trim(sessionId) ==>
        sessionStates[s].Agents() !! sessionStates[sessionId].Agents()
    {
      assert sessionStates[sessionId].Valid(Trim(sessionId), memory);
      forall s | s in sessionStates && Trim(s) != Trim(sessionId)
        ensures sessionStates[s].Agents() !! sessionStates[sessionId].Agents()
      {
        assert sessionStates[s].Valid(Trim(s), memory);
      }
    }

    lemma TrimmedChat(sessionId: string, chat: string)
      requires chat == Trim(sessionId)
      ensures Trim(chat) == chat
    {
      TrimIdempotent(sessionId);
    }

    /** Work confined to one session's state leaves the manager valid. */
    twostate lemma StillValid(sessionId: string)
      requires old(Valid()) && unchanged(this)
      requires memory != null ==> memory.Valid()
      requires sessionId in sessionStates && sessionStates[sessionId].Valid(Trim(sessionId), memory)
      requires forall s :: s in sessionStates && s != sessionId ==> unchanged(sessionStates[s])
      ensures Valid()
    {
      forall s | s in sessionStates ensures Trim(s) != "" && sessionStates[s].Valid(Trim(s), memory) {
        if s != sessionId {
          assert old(sessionStates[s].Valid(Trim(s), memory));
        }
      }
    }

    /** `endSession`: forgets the state kept under the id and the agent kept under the trimmed
        id; stored history stays. True iff there was such an agent. */
    method EndSession(sessionId: string) returns (found: bool)
      requires Valid()
      modifies this
      ensures Valid() && OtherSessionsKept(sessionId)
      ensures sessionId !in sessionStates
      ensures found <==> sessionId != "" && Trim(sessionId) in old(activeSessions)
      ensures activeSessions == if sessionId != "" then old(activeSessions) - {Trim(sessionId)} else old(activeSessions)
    {
      sessionStates := sessionStates - {sessionId};
      if sessionId == "" {
        return false;
      }
      found := Trim(sessionId) in activeSessions;
      activeSessions := activeSessions - {Trim(sessionId)};
    }

    /** Clears every agent of a session, and with them the chat's log; a pending result is
        dropped, control stays where it is. */
    method ClearState(state: SessionState, ghost chat: string)
      requires memory != null ==> memory.Valid()
      requires state.Valid(chat, memory)
      modifies state, state.Agents(), MemoryObjects()
      ensures memory != null ==> memory.Valid()
      ensures state.Valid(chat, memory)
      ensures state.View() == TakePending(old(state.View()))
      ensures state.fates == old(state.fates) + Discarded(old(state.View()))
      ensures forall a :: a in state.Agents() ==> a.conversationHistory == []
      ensures memory != null ==>
        forall c :: Load(memory.rows, c) == if c == chat then [] else old(Load(memory.rows, c))
    {
      ghost var view, fates := state.View(), state.fates;
      ClearAgents(state, chat);
      state.fates := state.fates + Discarded(state.View());
      state.pendingSpecialistResult := None;
      OperationKeeps(view, fates, Operation<ChatAgent>.ClearHistory);
    }

    method ClearAgents(state: SessionState, ghost chat: string)
      requires memory != null ==> memory.Valid()
      requires state.SharesChat(chat, memory)
      modifies state.Agents(), MemoryObjects()
      ensures memory != null ==> memory.Valid()
      ensures forall a :: a in state.Agents() ==> a.conversationHistory == []
      ensures memory != null ==>
        forall c :: Load(memory.rows, c) == if c == chat then [] else old(Load(memory.rows, c))
    {
      assert state.primaryAgent in state.Agents();
      state.primaryAgent.ClearHistory();
      ClearSpecialists(state, chat);
    }

    method ClearSpecialists(state: SessionState, ghost chat: string)
      requires memory != null ==> memory.Valid() && Load(memory.rows, chat) == []
      requires state.SharesChat(chat, memory) && state.primaryAgent.conversationHistory == []
      modifies state.Agents(), MemoryObjects()
      ensures memory != null ==> memory.Valid()
      ensures forall a :: a in state.Agents() ==> a.conversationHistory == []
      ensures memory != null ==> Load(memory.rows, chat) == []
      ensures memory != null ==> forall c :: c != chat ==> Load(memory.rows, c) == old(Load(memory.rows, c))
    {
      var todo := state.specialistInstances.Keys;
      while todo != {}
        invariant todo <= state.specialistInstances.Keys
        invariant memory != null ==> memory.Valid() && Load(memory.rows, chat) == []
        invariant memory != null ==> forall c :: c != chat ==> Load(memory.rows, c) == old(Load(memory.rows, c))
        invariant state.primaryAgent.conversationHistory == []
        invariant forall r :: r in state.specialistInstances && r !in todo ==>
          state.specialistInstances[r].conversationHistory == []
      {
        var role :| role in todo;
        var specialist := state.specialistInstances[role];
        assert specialist in state.specialistInstances.Values;
        specialist.ClearHistory();
        todo := todo - {role};
      }
    }

    /** `clearSessionHistory`. Without a state under this id it clears the agent or, failing that,
        the stored chat under the trimmed id; `ok` is false where the original throws. */
    method ClearSessionHistory(sessionId: string) returns (ok: bool)
      requires Valid()
      modifies SessionObjects(sessionId), MemoryObjects()
      ensures Valid() && OtherChatsKept(sessionId)
      ensures ok <==> Trim(sessionId) != "" && (sessionId in sessionStates || Trim(sessionId) in activeSessions || memory != null)
      ensures ok && memory != null ==> Load(memory.rows, Trim(sessionId)) == []
      ensures sessionId in sessionStates ==>
        && sessionStates[sessionId].View() == TakePending(old(sessionStates[sessionId].View()))
        && forall a :: a in sessionStates[sessionId].Agents() ==> a.conversationHistory == []
      ensures sessionId in sessionStates ==> CopiesIn(sessionStates[sessionId], Trim(sessionId))
    {
      if sessionId in sessionStates {
        ClearStateOf(sessionId);
        return true;
      }
      var trimmed := Trim(sessionId);
      if trimmed == "" {
        return false;
      }
      if trimmed in activeSessions {
        activeSessions[trimmed].ClearHistory();
        return true;
      }
      if memory != null {
        memory.ClearHistory(trimmed);
        return true;
      }
      return false;
    }

    method ClearStateOf(sessionId: string)
      requires Valid() && sessionId in sessionStates
      modifies sessionStates[sessionId], sessionStates[sessionId].Agents(), MemoryObjects()
      ensures Valid() && OtherChatsKept(sessionId)
      ensures memory != null ==> Load(memory.rows, Trim(sessionId)) == []
      ensures sessionStates[sessionId].View() == TakePending(old(sessionStates[sessionId].View()))
      ensures forall a :: a in sessionStates[sessionId].Agents() ==> a.conversationHistory == []
      ensures CopiesIn(sessionStates[sessionId], Trim(sessionId))
    {
      ClearState(sessionStates[sessionId], Trim(sessionId));
      ClearedInStep(sessionStates[sessionId], Trim(sessionId));
      StillValid(sessionId);
    }

    /** `shutdown`: all sessions are forgotten. Closing the connections is not modelled. */
    method Shutdown()
      requires Valid()
      modifies this
      ensures Valid() && sessionStates == map[] && activeSessions == map[]
    {
      sessionStates := map[];
      activeSessions := map[];
    }
  }
}
