/**
 What a client of RoutingChatManager that waits for each answer can rely on over a whole run of
 requests, with session ids that have no surrounding whitespace.
 */
module Clients {
  import opened Common
  import opened ConversationLog
  import opened Protocol
  import opened Conversation
  import opened ChatAgents
  import opened RoutingManager

  datatype Request =
    | Send(session: string, message: string, options: SessionOptions, first: Turn, second: Turn)
    | Clear(session: string)
    | End(session: string)

  ghost function AgentsOf(m: RoutingChatManager, s: string): set<ChatAgent>
    reads m, m.sessionStates.Values
  {
    if s in m.sessionStates then m.sessionStates[s].Agents() else {}
  }

  /** The session has a state exactly when it has a coordinator, and the state is around that
      coordinator; the history of each of its agents is a subsequence of the session's log. */
  ghost predicate InStep(m: RoutingChatManager, s: string)
    reads m, m.sessionStates.Values, AgentsOf(m, s), m.MemoryObjects()
  {
    && (s in m.sessionStates <==> s in m.activeSessions)
    && (s in m.sessionStates ==>
          m.sessionStates[s].primaryAgent == m.activeSessions[s] && m.CopiesIn(m.sessionStates[s], s))
  }

  twostate predicate LogKept(m: RoutingChatManager, s: string)
    reads m.MemoryObjects()
  {
    m.memory != null ==> Load(m.memory.rows, s) == old(Load(m.memory.rows, s))
  }

  /** A message to the session itself. */
  method SendToSession(m: RoutingChatManager, r: Request) returns (answer: Answer<ChatAgent>)
    requires m.Valid() && r.Send? && Trim(r.session) == r.session
    requires InStep(m, r.session)
    modifies m, m.SessionObjects(r.session), m.MemoryObjects()
    ensures m.Valid() && InStep(m, r.session)
  {
    answer := m.ProcessMessage(r.session, r.message, r.options, r.first, r.second);
  }

  /** Nothing of a session belongs to another one. */
  lemma SessionsApart(m: RoutingChatManager, r: string, s: string)
    requires m.Valid() && Trim(r) == r && Trim(s) == s && r != s && s in m.sessionStates
    ensures m.sessionStates[s] !in m.SessionObjects(r)
    ensures forall a :: a in m.sessionStates[s].Agents() ==> a !in m.SessionObjects(r)
  {
    assert m.sessionStates[s].Valid(Trim(s), m.memory);
    forall a | a in m.sessionStates[s].Agents() ensures a !in m.SessionObjects(r) {
      assert a.chatId == Some(s);
      if r in m.sessionStates {
        assert m.sessionStates[r].Valid(Trim(r), m.memory);
      }
    }
  }

  /** What a message to a session cannot touch. */
  method Deliver(m: RoutingChatManager, r: Request) returns (answer: Answer<ChatAgent>)
    requires m.Valid() && r.Send? && Trim(r.session) == r.session
    modifies m, m.SessionObjects(r.session), m.MemoryObjects()
    ensures m.Valid() && m.OtherChatsKept(r.session) && m.OtherSessionsKept(r.session)
    ensures forall s :: s != r.session ==>
      (s in m.activeSessions <==> s in old(m.activeSessions)) &&
      (s in m.activeSessions ==> m.activeSessions[s] == old(m.activeSessions)[s])
  {
    answer := m.ProcessMessage(r.session, r.message, r.options, r.first, r.second);
  }

  /** A message to another session touches nothing of this one. */
  method DeliverElsewhere(m: RoutingChatManager, r: Request, ghost s: string) returns (answer: Answer<ChatAgent>)
    requires m.Valid() && r.Send? && Trim(r.session) == r.session
    requires Trim(s) == s && s != r.session && s in m.sessionStates && s in m.activeSessions
    modifies m, m.SessionObjects(r.session), m.MemoryObjects()
    ensures m.Valid() && LogKept(m, s)
    ensures s in m.sessionStates && m.sessionStates[s] == old(m.sessionStates)[s] && unchanged(m.sessionStates[s])
    ensures s in m.activeSessions && m.activeSessions[s] == old(m.activeSessions)[s]
    ensures forall a :: a in old(m.sessionStates[s].Agents()) ==> a.conversationHistory == old(a.conversationHistory)
  {
    SessionsApart(m, r.session, s);
    answer := Deliver(m, r);
  }

  method SendToAnother(m: RoutingChatManager, r: Request, s: string) returns (answer: Answer<ChatAgent>)
    requires m.Valid() && r.Send? && Trim(r.session) == r.session
    requires Trim(s) == s && s != r.session && InStep(m, s)
    modifies m, m.SessionObjects(r.session), m.MemoryObjects()
    ensures m.Valid() && InStep(m, s) && LogKept(m, s)
  {
    if s in m.sessionStates {
      answer := DeliverElsewhere(m, r, s);
      m.OtherCopiesKept(s);
    } else {
      answer := Deliver(m, r);
    }
  }

  /** The manager is none of the objects a request to a session may touch besides it. */
  lemma ManagerApart(m: RoutingChatManager, session: string)
    ensures m as object !in m.SessionObjects(session) && m as object !in m.MemoryObjects()
  {}

  /** Clearing a session that has a state empties its copies. */
  method Empty(m: RoutingChatManager, r: Request)
    requires m.Valid() && r.Clear? && Trim(r.session) == r.session && r.session in m.sessionStates
    modifies m, m.SessionObjects(r.session), m.MemoryObjects()
    ensures unchanged(m)
    ensures m.Valid() && m.CopiesIn(m.sessionStates[r.session], r.session)
  {
    ManagerApart(m, r.session);
    var ok := m.ClearSessionHistory(r.session);
  }

  method ClearSession(m: RoutingChatManager, r: Request)
    requires m.Valid() && r.Clear? && Trim(r.session) == r.session && InStep(m, r.session)
    modifies m, m.SessionObjects(r.session), m.MemoryObjects()
    ensures m.Valid() && InStep(m, r.session)
  {
    if r.session in m.sessionStates {
      Empty(m, r);
    } else {
      Forget(m, r);
    }
  }

  /** What clearing a session leaves alone. */
  method Forget(m: RoutingChatManager, r: Request)
    requires m.Valid() && r.Clear? && Trim(r.session) == r.session
    modifies m, m.SessionObjects(r.session), m.MemoryObjects()
    ensures unchanged(m)
    ensures m.Valid() && m.OtherChatsKept(r.session)
  {
    ManagerApart(m, r.session);
    var ok := m.ClearSessionHistory(r.session);
  }

  /** Clearing a session touches nothing of another one. */
  method Wipe(m: RoutingChatManager, r: Request, ghost s: string)
    requires m.Valid() && r.Clear? && Trim(r.session) == r.session
    requires Trim(s) == s && s != r.session && s in m.sessionStates
    modifies m, m.SessionObjects(r.session), m.MemoryObjects()
    ensures unchanged(m)
    ensures m.Valid() && LogKept(m, s)
    ensures unchanged(m.sessionStates[s])
    ensures forall a :: a in old(m.sessionStates[s].Agents()) ==> a.conversationHistory == old(a.conversationHistory)
  {
    SessionsApart(m, r.session, s);
    Forget(m, r);
  }

  method ClearBeside(m: RoutingChatManager, r: Request, ghost s: string)
    requires m.Valid() && r.Clear? && Trim(r.session) == r.session
    requires Trim(s) == s && s != r.session && s in m.sessionStates
    modifies m, m.SessionObjects(r.session), m.MemoryObjects()
    ensures m.Valid() && LogKept(m, s)
    ensures old(InStep(m, s)) ==> InStep(m, s)
  {
    Wipe(m, r, s);
    m.OtherCopiesKept(s);
  }

  method ClearAnother(m: RoutingChatManager, r: Request, s: string)
    requires m.Valid() && r.Clear? && Trim(r.session) == r.session
    requires Trim(s) == s && s != r.session && InStep(m, s)
    modifies m, m.SessionObjects(r.session), m.MemoryObjects()
    ensures m.Valid() && InStep(m, s) && LogKept(m, s)
  {
    if s in m.sessionStates {
      ClearBeside(m, r, s);
      return;
    }
    Forget(m, r);
  }

  method EndAny(m: RoutingChatManager, r: Request, ghost s: string)
    requires m.Valid() && r.End? && Trim(r.session) == r.session
    requires Trim(s) == s && InStep(m, s)
    modifies m
    ensures m.Valid() && InStep(m, s) && LogKept(m, s)
  {
    var found := m.EndSession(r.session);
  }

  /** One request, to whichever session, keeps every session in step; the log of a session changes
      only by requests to itself. */
  method Handle(m: RoutingChatManager, r: Request, s: string)
    requires m.Valid() && Trim(r.session) == r.session
    requires Trim(s) == s && InStep(m, s)
    modifies m, m.SessionObjects(r.session), m.MemoryObjects()
    ensures m.Valid() && InStep(m, s)
    ensures r.session != s ==> LogKept(m, s)
  {
    match r
    case Send(session, _, _, _, _) =>
      if session == s {
        var answer := SendToSession(m, r);
      } else {
        var answer := SendToAnother(m, r, s);
      }
    case Clear(session) =>
      if session == s {
        ClearSession(m, r);
      } else {
        ClearAnother(m, r, s);
      }
    case End(session) => EndAny(m, r, s);
  }

  /** Serving may touch any object; what it must not change is said by its contract. */
  predicate Touchable(o: object) {
    true
  }

  /** Over any run of requests that wait for one another, and for any session: the history of every
      live agent of the session is a subsequence of its log after every request, and the log is
      as it was unless a request was addressed to the session. */
  method Serve(m: RoutingChatManager, requests: seq<Request>, s: string)
    requires m.Valid() && (forall r :: r in requests ==> Trim(r.session) == r.session)
    requires Trim(s) == s && InStep(m, s)
    modifies iset o: object | Touchable(o)
    ensures m.Valid() && InStep(m, s)
    ensures (forall r :: r in requests ==> r.session != s) ==> LogKept(m, s)
  {
    for i := 0 to |requests|
      invariant m.Valid() && InStep(m, s)
      invariant (forall r :: r in requests ==> r.session != s) ==> LogKept(m, s)
    {
      assert requests[i] in requests;
      Handle(m, requests[i], s);
    }
  }
}
