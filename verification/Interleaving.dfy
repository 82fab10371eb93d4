/**
 Many `processMessage` calls on one session state at once: every `await` is a point where
 other calls may run. What survives any interleaving, and what only a client that waits for
 each answer can count on.
 */
module Interleaving {
  import opened Common
  import opened SubconversationTools
  import opened Protocol

  /** Where a call is suspended. */
  datatype Pc<A> =
    | AskedFirst(agent: A)                                 // the chosen agent is answering
    | Starting                                             // in `_startSubConversation`
    | Ending                                               // in `_endSubConversation`, END from a specialist
    | EndingFromPrimary(agent: A, outcome: Outcome)        // in it, END from the primary
    | AskedSecond(agent: A)                                // the agent called next is answering
    | Finished(answer: Answer<A>)

  datatype System<A> = System(session: Session<A>, calls: map<nat, Pc<A>>, fates: seq<Fate>)

  datatype Event<A> =
    | Begin(id: nat)
    | FirstReply(id: nat, outcome: Outcome, available: bool, newcomer: A)
    | Resume(id: nat)
    | SecondReply(id: nat, outcome: Outcome)
    | Clear

  ghost predicate Enabled<A>(y: System<A>, e: Event<A>) {
    match e
    case Begin(id) => id !in y.calls
    case FirstReply(id, _, _, newcomer) => id in y.calls && y.calls[id].AskedFirst? && IsNew(y.session, newcomer)
    case Resume(id) => id in y.calls && (y.calls[id].Starting? || y.calls[id].Ending? || y.calls[id].EndingFromPrimary?)
    case SecondReply(id, _) => id in y.calls && y.calls[id].AskedSecond?
    case Clear => true
  }

  function HandleFirst<A(==)>(y: System<A>, id: nat, agent: A, o: Outcome, available: bool, newcomer: A): System<A> {
    match o
    case Failed => y.(calls := y.calls[id := Finished(ErrorText)])
    case Replied(_, None) => y.(calls := y.calls[id := Finished(Said(agent, o))])
    case Replied(_, Some(SignalError)) => y.(calls := y.calls[id := Finished(Said(agent, o))])
    case Replied(_, Some(RequestSubConversation(r))) =>
      y.(session := StartSub(y.session, r.role, available, newcomer), calls := y.calls[id := Starting])
    case Replied(_, Some(EndSubConversation(d))) =>
      System(EndSub(y.session, d),
             y.calls[id := if agent != y.session.primary then Ending else EndingFromPrimary(agent, o)],
             y.fates + Replacing(y.session, d))
  }

  function HandleResume<A(==)>(y: System<A>, id: nat): System<A>
    requires id in y.calls
  {
    var s := y.session;
    match y.calls[id]
    case Starting =>
      y.(calls := y.calls[id := if s.active != s.primary then AskedSecond(s.active) else Finished(ErrorText)])
    case Ending =>
      if s.pending.None? then y.(calls := y.calls[id := Finished(ResultMissingText)])
      else System(TakePending(s), y.calls[id := AskedSecond(s.primary)], y.fates + PendingNote(s))
    case EndingFromPrimary(agent, o) => y.(calls := y.calls[id := Finished(Said(agent, o))])
    case _ => y
  }

  ghost function Next<A>(y: System<A>, e: Event<A>): System<A>
    requires Enabled(y, e)
  {
    match e
    case Begin(id) =>
      System(TakePending(y.session), y.calls[id := AskedFirst(Chosen(y.session))], y.fates + PendingNote(y.session))
    case FirstReply(id, o, available, newcomer) => HandleFirst(y, id, y.calls[id].agent, o, available, newcomer)
    case Resume(id) => HandleResume(y, id)
    case SecondReply(id, o) => y.(calls := y.calls[id := Finished(AnswerOf(y.calls[id].agent, o))])
    case Clear => System(TakePending(y.session), y.calls, y.fates + Discarded(y.session))
  }

  ghost predicate IsRun<A>(y: System<A>, events: seq<Event<A>>)
    decreases |events|
  {
    events != [] ==> Enabled(y, events[0]) && IsRun(Next(y, events[0]), events[1..])
  }

  ghost function After<A>(y: System<A>, events: seq<Event<A>>): System<A>
    requires IsRun(y, events)
    decreases |events|
  {
    if events == [] then y else After(Next(y, events[0]), events[1..])
  }

  ghost predicate Member<A>(s: Session<A>, a: A) {
    a == s.primary || a in s.specialists.Values
  }

  /** Holds at every await point of every interleaving. */
  ghost predicate Safe<A>(y: System<A>) {
    && Consistent(y.session)
    && Conserved(y.session, y.fates)
    && forall id :: id in y.calls ==>
         match y.calls[id]
         case AskedFirst(a) => Member(y.session, a)
         case EndingFromPrimary(a, _) => Member(y.session, a)
         case AskedSecond(a) => Member(y.session, a)
         case Finished(Said(a, _)) => Member(y.session, a)
         case _ => true
  }

  lemma MembersStay<A>(s: Session<A>, role: string, available: bool, newcomer: A)
    ensures forall a :: Member(s, a) ==> Member(StartSub(s, role, available, newcomer), a)
  {
    var t := StartSub(s, role, available, newcomer);
    forall a | Member(s, a) ensures Member(t, a) {
      if a in s.specialists.Values {
        var q :| q in s.specialists && s.specialists[q] == a;
        if q != role || role in s.specialists {
          assert q in t.specialists && t.specialists[q] == a;
        }
      }
    }
  }

  lemma StepSafe<A>(y: System<A>, e: Event<A>)
    requires Safe(y) && Enabled(y, e)
    ensures Safe(Next(y, e))
    ensures Next(y, e).session.primary == y.session.primary
  {
    match e
    case Begin(id) => BeginSafe(y, id);
    case FirstReply(id, o, available, newcomer) => FirstReplySafe(y, id, o, available, newcomer);
    case Resume(id) => ResumeSafe(y, id);
    case SecondReply(id, o) =>
    case Clear =>
      if y.session.pending.Some? {
        SettlePending(y.session, y.fates, Dropped(y.session.pending.value));
      } else {
        assert y.fates + [] == y.fates;
      }
  }

  lemma TakeIntoAccount<A>(s: Session<A>, fates: seq<Fate>)
    requires Conserved(s, fates)
    ensures Conserved(TakePending(s), fates + PendingNote(s))
  {
    if s.pending.Some? {
      SettlePending(s, fates, Noted(s.pending.value));
    } else {
      assert fates + [] == fates;
    }
  }

  lemma BeginSafe<A>(y: System<A>, id: nat)
    requires Safe(y) && id !in y.calls
    ensures Safe(Next(y, Begin(id)))
  {
    TakeIntoAccount(y.session, y.fates);
    assert Member(y.session, Chosen(y.session)) by {
      if y.session.role.Some? {
        assert y.session.specialists[y.session.role.value] in y.session.specialists.Values;
      }
    }
  }

  lemma FirstReplySafe<A>(y: System<A>, id: nat, o: Outcome, available: bool, newcomer: A)
    requires Safe(y) && Enabled(y, FirstReply(id, o, available, newcomer))
    ensures Safe(Next(y, FirstReply(id, o, available, newcomer)))
  {
    match o
    case Replied(_, Some(RequestSubConversation(r))) =>
      StartSubConsistent(y.session, r.role, available, newcomer);
      MembersStay(y.session, r.role, available, newcomer);
    case Replied(_, Some(EndSubConversation(d))) =>
      EndSubConserves(y.session, y.fates, d);
    case _ =>
  }

  lemma ResumeSafe<A>(y: System<A>, id: nat)
    requires Safe(y) && Enabled(y, Resume(id))
    ensures Safe(Next(y, Resume(id)))
  {
    TakeIntoAccount(y.session, y.fates);
    assert Member(y.session, y.session.active) by {
      if y.session.role.Some? {
        assert y.session.specialists[y.session.role.value] in y.session.specialists.Values;
      }
    }
  }

  /** However calls and clears interleave: the active agent is the primary iff no role is
      active and otherwise the instance stored for the role; every accepted result is
      noted, overwritten or dropped exactly once, in order, or still pending; and only agents
      of the session are ever asked or quoted. */
  lemma {:induction false} AnyInterleaving<A>(y: System<A>, events: seq<Event<A>>)
    requires Safe(y) && IsRun(y, events)
    ensures Safe(After(y, events)) && After(y, events).session.primary == y.session.primary
    decreases |events|
  {
    if events != [] {
      StepSafe(y, events[0]);
      AnyInterleaving(Next(y, events[0]), events[1..]);
    }
  }

  // ---------- calls that do not overlap ----------

  lemma {:induction false} RunExtends<A>(y: System<A>, events: seq<Event<A>>, e: Event<A>)
    requires IsRun(y, events) && Enabled(After(y, events), e)
    ensures IsRun(y, events + [e]) && After(y, events + [e]) == Next(After(y, events), e)
    decreases |events|
  {
    if events == [] {
      assert [e][1..] == [];
      assert [] + [e] == [e];
    } else {
      RunExtends(Next(y, events[0]), events[1..], e);
      assert (events + [e])[1..] == events[1..] + [e];
    }
  }

  /** A call that nothing interrupts does what `Protocol.Call` says. */
  lemma UninterruptedCall<A>(y: System<A>, id: nat, first: Outcome, available: string -> bool, newcomer: A, second: Outcome)
    returns (events: seq<Event<A>>)
    requires id !in y.calls && IsNew(y.session, newcomer)
    ensures IsRun(y, events)
    ensures var end, z := Call(y.session, first, available, newcomer, second), After(y, events);
      z.session == end.session && z.fates == y.fates + end.fates
      && z.calls == y.calls[id := Finished(end.answer)]
  {
    var role := if first.Replied? && first.signal.Some? && first.signal.value.RequestSubConversation?
                then first.signal.value.request.role else "";
    var able := available(role);
    events := Extend(y, [], Begin(id));
    events := Extend(y, events, FirstReply(id, first, able, newcomer));
    if !After(y, events).calls[id].Finished? {
      events := Extend(y, events, Resume(id));
      if !After(y, events).calls[id].Finished? {
        events := Extend(y, events, SecondReply(id, second));
      }
    }
    SoloEffect(y, id, first, available, newcomer, second);
  }

  /** The call's steps, one after another. */
  ghost function Solo<A>(y: System<A>, id: nat, first: Outcome, able: bool, newcomer: A, second: Outcome): System<A>
    requires id !in y.calls && IsNew(y.session, newcomer)
  {
    var y2 := Next(Next(y, Begin(id)), FirstReply(id, first, able, newcomer));
    if y2.calls[id].Finished? then y2
    else
      var y3 := Next(y2, Resume(id));
      if y3.calls[id].Finished? then y3 else Next(y3, SecondReply(id, second))
  }

  lemma SoloEffect<A>(y: System<A>, id: nat, first: Outcome, available: string -> bool, newcomer: A, second: Outcome)
    requires id !in y.calls && IsNew(y.session, newcomer)
    ensures var role := if first.Replied? && first.signal.Some? && first.signal.value.RequestSubConversation?
                        then first.signal.value.request.role else "";
      var end, z := Call(y.session, first, available, newcomer, second), Solo(y, id, first, available(role), newcomer, second);
      z.session == end.session && z.fates == y.fates + end.fates && z.calls == y.calls[id := Finished(end.answer)]
  {
    match first
    case Replied(_, Some(RequestSubConversation(r))) =>
      SoloRequest(y, id, first, available, newcomer, second);
    case Replied(_, Some(EndSubConversation(d))) =>
      SoloEnd(y, id, first, available, newcomer, second);
    case _ =>
      var able := available("");
      var y1 := Next(y, Begin(id));
      assert Next(y1, FirstReply(id, first, able, newcomer)) == HandleFirst(y1, id, Chosen(y.session), first, able, newcomer);
  }

  lemma SoloRequest<A>(y: System<A>, id: nat, first: Outcome, available: string -> bool, newcomer: A, second: Outcome)
    requires id !in y.calls && IsNew(y.session, newcomer)
    requires first.Replied? && first.signal.Some? && first.signal.value.RequestSubConversation?
    ensures var end, z := Call(y.session, first, available, newcomer, second),
                          Solo(y, id, first, available(first.signal.value.request.role), newcomer, second);
      z.session == end.session && z.fates == y.fates + end.fates && z.calls == y.calls[id := Finished(end.answer)]
  {
    var able := available(first.signal.value.request.role);
    var y1 := Next(y, Begin(id));
    var y2 := Next(y1, FirstReply(id, first, able, newcomer));
    assert y2 == y1.(session := StartSub(y1.session, first.signal.value.request.role, able, newcomer),
                     calls := y1.calls[id := Starting]);
    var y3 := Next(y2, Resume(id));
    assert y3 == HandleResume(y2, id);
  }

  lemma SoloEnd<A>(y: System<A>, id: nat, first: Outcome, available: string -> bool, newcomer: A, second: Outcome)
    requires id !in y.calls && IsNew(y.session, newcomer)
    requires first.Replied? && first.signal.Some? && first.signal.value.EndSubConversation?
    ensures var end, z := Call(y.session, first, available, newcomer, second),
                          Solo(y, id, first, available(""), newcomer, second);
      z.session == end.session && z.fates == y.fates + end.fates && z.calls == y.calls[id := Finished(end.answer)]
  {
    var d, able := first.signal.value.details, available("");
    var s, s1 := y.session, TakePending(y.session);
    var y1 := Next(y, Begin(id));
    var y2 := Next(y1, FirstReply(id, first, able, newcomer));
    assert y2 == HandleFirst(y1, id, Chosen(s), first, able, newcomer);
    assert y2.fates == y.fates + (PendingNote(s) + Replacing(s1, d));
    assert y2.session == EndSub(s1, d);
    var y3 := Next(y2, Resume(id));
    assert y3 == HandleResume(y2, id);
    assert y3.fates == y.fates + (PendingNote(s) + Replacing(s1, d)) + if Chosen(s) == s.primary then [] else PendingNote(y2.session);
    assert y3.fates == y.fates + Call(s, first, available, newcomer, second).fates;
  }

  // ---------- exactly when a result is lost ----------

  predicate EndArrives<A>(e: Event<A>) {
    e.FirstReply? && e.outcome.Replied? && e.outcome.signal.Some? && e.outcome.signal.value.EndSubConversation?
  }

  /** A step loses a result to a later one exactly when an END comes back while another result
      is still pending. */
  lemma StepOverwritesIff<A>(y: System<A>, e: Event<A>)
    requires Enabled(y, e)
    ensures y.fates <= Next(y, e).fates
    ensures (exists k :: |y.fates| <= k < |Next(y, e).fates| && Next(y, e).fates[k].Overwritten?)
        <==> EndArrives(e) && y.session.pending.Some?
  {
    var z := Next(y, e);
    if EndArrives(e) {
      var added := Replacing(y.session, e.outcome.signal.value.details);
      assert z.fates == y.fates + added;
      if y.session.pending.Some? {
        assert z.fates[|y.fates|] == added[0];
      }
    }
  }

  /** Whenever an END comes back during the run, no other result is pending. */
  ghost predicate EndsFindRoom<A>(y: System<A>, events: seq<Event<A>>)
    requires IsRun(y, events)
    decreases |events|
  {
    events != [] ==>
      && (EndArrives(events[0]) ==> y.session.pending.None?)
      && EndsFindRoom(Next(y, events[0]), events[1..])
  }

  lemma StepLosesIff<A>(y: System<A>, e: Event<A>)
    requires Enabled(y, e)
    ensures NothingOverwritten(Next(y, e).fates) <==>
            NothingOverwritten(y.fates) && (EndArrives(e) ==> y.session.pending.None?)
  {
    var a, b := y.fates, Next(y, e).fates;
    StepOverwritesIff(y, e);
    assert forall k :: 0 <= k < |a| ==> b[k] == a[k];
    if NothingOverwritten(b) {
      assert forall k :: 0 <= k < |b| ==> b[k] in b;
      forall f | f in a ensures !f.Overwritten? {
        var k :| 0 <= k < |a| && a[k] == f;
        assert b[k] == f;
      }
    }
  }

  /** Over any run: nothing has been lost in the end iff nothing had been lost before and no END
      came back while another result was pending. */
  lemma {:induction false} RunLosesNothingIff<A>(y: System<A>, events: seq<Event<A>>)
    requires IsRun(y, events)
    ensures NothingOverwritten(After(y, events).fates) <==>
            NothingOverwritten(y.fates) && EndsFindRoom(y, events)
    decreases |events|
  {
    if events != [] {
      StepLosesIff(y, events[0]);
      RunLosesNothingIff(Next(y, events[0]), events[1..]);
    }
  }

  // ---------- exactly when a result has gone missing ----------

  /** The steps that empty the place of the pending result: a call begins, the history is
      cleared, or a call whose specialist ended resumes. */
  ghost predicate Takes<A>(y: System<A>, e: Event<A>) {
    e.Begin? || e.Clear? || (e.Resume? && e.id in y.calls && y.calls[e.id].Ending?)
  }

  ghost predicate NoEndIn<A>(events: seq<Event<A>>) {
    forall e :: e in events ==> !EndArrives(e)
  }

  /** Some step of the run empties the place and no later END fills it again. */
  ghost predicate TakenForGood<A>(y: System<A>, events: seq<Event<A>>)
    requires IsRun(y, events)
    decreases |events|
  {
    events != [] &&
      (|| (Takes(y, events[0]) && NoEndIn(events[1..]))
       || TakenForGood(Next(y, events[0]), events[1..]))
  }

  lemma PendingStep<A>(y: System<A>, e: Event<A>)
    requires Enabled(y, e)
    ensures Next(y, e).session.pending.None? <==>
            Takes(y, e) || (y.session.pending.None? && !EndArrives(e))
  {}

  lemma {:induction false} NothingPendingIff<A>(y: System<A>, events: seq<Event<A>>)
    requires IsRun(y, events)
    ensures After(y, events).session.pending.None? <==>
            TakenForGood(y, events) || (y.session.pending.None? && NoEndIn(events))
    decreases |events|
  {
    if events != [] {
      PendingStep(y, events[0]);
      NothingPendingIff(Next(y, events[0]), events[1..]);
      assert events == [events[0]] + events[1..];
    }
  }

  lemma {:induction false} StaysEnding<A>(y: System<A>, events: seq<Event<A>>, id: nat)
    requires IsRun(y, events) && id in y.calls && y.calls[id].Ending?
    requires Resume(id) !in events
    ensures id in After(y, events).calls && After(y, events).calls[id].Ending?
    decreases |events|
  {
    if events != [] {
      assert events[0] in events;
      StaysEnding(Next(y, events[0]), events[1..], id);
    }
  }

  /** A specialist's END comes back to call `id`, other steps follow, and the call resumes: it
      answers that its result went missing iff one of those steps took the pending result and
      no later END put another in its place. */
  lemma ResultMissingIff<A>(y: System<A>, id: nat, end: Event<A>, between: seq<Event<A>>)
    requires Enabled(y, end) && EndArrives(end) && end.id == id
    requires id in y.calls && y.calls[id].AskedFirst? && y.calls[id].agent != y.session.primary
    requires IsRun(Next(y, end), between) && Resume(id) !in between
    ensures var z := After(Next(y, end), between);
      && Enabled(z, Resume(id))
      && id in Next(z, Resume(id)).calls
      && (Next(z, Resume(id)).calls[id] == Finished(ResultMissingText) <==> TakenForGood(Next(y, end), between))
  {
    var y1 := Next(y, end);
    assert y1.session.pending.Some? && id in y1.calls && y1.calls[id].Ending?;
    StaysEnding(y1, between, id);
    NothingPendingIff(y1, between);
  }

  /** And this is the only way to that answer: no other step gives it. */
  lemma OnlyResumeMisses<A>(y: System<A>, e: Event<A>, id: nat)
    requires Enabled(y, e) && id in Next(y, e).calls
    requires Next(y, e).calls[id] == Finished(ResultMissingText)
    requires id in y.calls ==> y.calls[id] != Finished(ResultMissingText)
    ensures e == Resume(id) && id in y.calls && y.calls[id].Ending? && y.session.pending.None?
  {}

  ghost predicate Idle<A>(y: System<A>) {
    forall id :: id in y.calls ==> y.calls[id].Finished?
  }

  /** Calls begin, and the history is cleared, only while no call is under way. */
  ghost predicate Waits<A>(y: System<A>, events: seq<Event<A>>)
    requires IsRun(y, events)
    decreases |events|
  {
    events != [] ==>
      && (events[0].Begin? || events[0].Clear? ==> Idle(y))
      && Waits(Next(y, events[0]), events[1..])
  }

  /** One call at a time; the result it expects to find is there, and the place it will store
      one in is free; nothing has been lost and nobody was told that something was. */
  ghost predicate OneAtATime<A>(y: System<A>) {
    && (forall i, j :: i in y.calls && j in y.calls && !y.calls[i].Finished? && !y.calls[j].Finished? ==> i == j)
    && (forall i :: i in y.calls ==>
          match y.calls[i]
          case AskedFirst(_) => y.session.pending.None?
          case Ending => y.session.pending.Some?
          case Finished(a) => !a.ResultMissingText?
          case _ => true)
    && NothingOverwritten(y.fates)
  }

  lemma OneAtATimeStep<A>(y: System<A>, e: Event<A>)
    requires OneAtATime(y) && Enabled(y, e)
    requires e.Begin? || e.Clear? ==> Idle(y)
    ensures OneAtATime(Next(y, e))
  {
    match e
    case FirstReply(id, o, available, newcomer) =>
      assert y.session.pending.None?;
    case _ =>
  }

  /** In the machine with interleaving, a client that waits loses no result and is never told
      that one went missing. */
  lemma {:induction false} WaitingClientLosesNothing<A>(y: System<A>, events: seq<Event<A>>)
    requires OneAtATime(y) && IsRun(y, events) && Waits(y, events)
    ensures OneAtATime(After(y, events))
    decreases |events|
  {
    if events != [] {
      OneAtATimeStep(y, events[0]);
      WaitingClientLosesNothing(Next(y, events[0]), events[1..]);
    }
  }

  // ---------- what overlapping calls can do ----------

  /** Two messages sent to a specialist at once, both answered with END: the first result is
      overwritten, the coordinator never hears of it, and the second caller is told that its
      result went missing. Neither can happen to a client that waits (WaitingClientLosesNothing). */
  lemma OverlapLosesResult<A>(primary: A, specialist: A, other: A, role: string, d0: EndDetails, d1: EndDetails)
    returns (events: seq<Event<A>>)
    requires primary != specialist && other != primary && other != specialist
    ensures var y := System(Session(primary, specialist, Some(role), map[role := specialist], None), map[], []);
      Safe(y) && IsRun(y, events) &&
      var z := After(y, events);
        && z.fates == [Ended(SpecialistResult(Some(role), d0)), Overwritten(SpecialistResult(Some(role), d0)),
                       Ended(SpecialistResult(None, d1)), Noted(SpecialistResult(None, d1))]
        && 1 in z.calls && z.calls[1] == Finished(ResultMissingText)
  {
    var s := Session(primary, specialist, Some(role), map[role := specialist], None);
    var y := System(s, map[], []);
    var r0, r1 := SpecialistResult(Some(role), d0), SpecialistResult(None, d1);
    events := [];
    events := Extend(y, events, Begin(0));
    events := Extend(y, events, Begin(1));
    var y2 := After(y, events);
    assert y2.session == s && y2.fates == [];
    assert y2.calls == map[0 := AskedFirst(specialist), 1 := AskedFirst(specialist)];
    events := Extend(y, events, FirstReply(0, Replied("", Some(EndSubConversation(d0))), false, other));
    var y3 := After(y, events);
    var s3 := EndSub(s, d0);
    assert y3 == System(s3, y2.calls[0 := Ending], [Ended(r0)]);
    events := Extend(y, events, FirstReply(1, Replied("", Some(EndSubConversation(d1))), false, other));
    var y4 := After(y, events);
    assert y4 == System(EndSub(s3, d1), y3.calls[1 := Ending], [Ended(r0), Overwritten(r0), Ended(r1)]);
    events := Extend(y, events, Resume(0));
    var y5 := After(y, events);
    assert y5 == System(TakePending(y4.session), y4.calls[0 := AskedSecond(primary)], y4.fates + [Noted(r1)]);
    events := Extend(y, events, Resume(1));
  }

  lemma Extend<A>(y: System<A>, events: seq<Event<A>>, e: Event<A>) returns (more: seq<Event<A>>)
    requires IsRun(y, events) && Enabled(After(y, events), e)
    ensures more == events + [e] && IsRun(y, more) && After(y, more) == Next(After(y, events), e)
  {
    RunExtends(y, events, e);
    more := events + [e];
  }
}
