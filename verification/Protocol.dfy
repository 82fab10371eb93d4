/**
 The sub-conversation protocol of RoutingChatManager on one session: the transitions its
 methods make between two `await`s, one whole `processMessage` call made of them, and the
 machine in which many calls interleave at every `await`. Agents are compared by identity
 only, so they are a type parameter.
 */
module Protocol {
  import opened Common
  import opened SubconversationTools

  datatype SpecialistResult = SpecialistResult(endedRole: Option<string>, details: EndDetails)

  datatype Session<A> = Session(
    primary: A,
    active: A,
    role: Option<string>,
    specialists: map<string, A>,
    pending: Option<SpecialistResult>)

  /** What an agent's `processUserMessage` comes back with. */
  datatype Outcome = Replied(text: string, signal: Option<Signal>) | Failed

  function NewSession<A>(primary: A): Session<A> {
    Session(primary, primary, None, map[], None)
  }

  // ---------- the atomic transitions ----------

  /** Who gets the next message: the primary when a result is pending, else the active agent. */
  function Chosen<A>(s: Session<A>): A {
    if s.pending.Some? then s.primary else s.active
  }

  function TakePending<A>(s: Session<A>): Session<A> {
    s.(pending := None)
  }

  /** `_startSubConversation`: a known specialist is reused, an unknown one is built when the
      registry can; otherwise control reverts to the primary. */
  function StartSub<A>(s: Session<A>, role: string, available: bool, newcomer: A): Session<A> {
    if role in s.specialists then s.(active := s.specialists[role], role := Some(role))
    else if available then s.(specialists := s.specialists[role := newcomer], active := newcomer, role := Some(role))
    else s.(active := s.primary, role := None)
  }

  /** `_endSubConversation`. */
  function EndSub<A>(s: Session<A>, d: EndDetails): Session<A> {
    s.(pending := Some(SpecialistResult(s.role, d)), active := s.primary, role := None)
  }

  /** The active agent is the primary iff no specialist role is active, and otherwise it is the
      instance stored for that role. */
  ghost predicate Consistent<A>(s: Session<A>) {
    && (s.role.None? <==> s.active == s.primary)
    && (s.role.Some? ==> s.role.value in s.specialists && s.active == s.specialists[s.role.value])
    && s.primary !in s.specialists.Values
    && forall q, r :: q in s.specialists && r in s.specialists && q != r ==> s.specialists[q] != s.specialists[r]
  }

  /** An agent object not yet part of the session. */
  predicate IsNew<A(==)>(s: Session<A>, newcomer: A) {
    newcomer != s.primary && newcomer !in s.specialists.Values
  }

  /** The newcomer is new wherever it is going to be used. */
  ghost predicate Fits<A>(s: Session<A>, role: string, available: bool, newcomer: A) {
    role !in s.specialists && available ==> IsNew(s, newcomer)
  }

  lemma StartSubConsistent<A>(s: Session<A>, role: string, available: bool, newcomer: A)
    requires Consistent(s) && Fits(s, role, available, newcomer)
    ensures Consistent(StartSub(s, role, available, newcomer))
  {
    var t := StartSub(s, role, available, newcomer);
    if role in s.specialists {
      assert s.specialists[role] in s.specialists.Values;
    } else if available {
      assert t.specialists.Values <= s.specialists.Values + {newcomer};
      assert forall q :: q in s.specialists ==> s.specialists[q] in s.specialists.Values;
    }
  }

  // ---------- one uninterrupted call ----------

  /** What becomes of the results specialists hand back. */
  datatype Fate =
    | Ended(result: SpecialistResult)        // an END signal was accepted
    | Noted(result: SpecialistResult)        // its note went to the primary agent
    | Overwritten(result: SpecialistResult)  // replaced by a later result before that
    | Dropped(result: SpecialistResult)      // discarded by clearing or ending the session

  /** What the caller of `processMessage` gets; `speaker` is the agent whose words they are. */
  datatype Answer<A> =
    | Said(speaker: A, outcome: Outcome)
    | ErrorText           // a call failed
    | ResultMissingText   // the result just stored by END was gone again

  datatype CallEnd<A> = CallEnd(session: Session<A>, answer: Answer<A>, fates: seq<Fate>)

  function AnswerOf<A>(speaker: A, o: Outcome): Answer<A> {
    if o.Failed? then ErrorText else Said(speaker, o)
  }

  function PendingNote<A>(s: Session<A>): seq<Fate> {
    if s.pending.Some? then [Noted(s.pending.value)] else []
  }

  function Replacing<A>(s: Session<A>, d: EndDetails): seq<Fate> {
    (if s.pending.Some? then [Overwritten(s.pending.value)] else []) + [Ended(SpecialistResult(s.role, d))]
  }

  /** What `processMessage` does once the agent asked has come back with `first`; `second` is
      what the agent called next answers, if one is. A signal inside `second` is passed on
      without being acted on. */
  function Act<A(==)>(s: Session<A>, asked: A, first: Outcome, available: string -> bool, newcomer: A, second: Outcome): CallEnd<A> {
    match first
    case Failed => CallEnd(s, ErrorText, [])
    case Replied(_, None) => CallEnd(s, Said(asked, first), [])
    case Replied(_, Some(SignalError)) => CallEnd(s, Said(asked, first), [])
    case Replied(_, Some(RequestSubConversation(r))) =>
      var s2 := StartSub(s, r.role, available(r.role), newcomer);
      if s2.active != s2.primary then CallEnd(s2, AnswerOf(s2.active, second), [])
      else CallEnd(s2, ErrorText, [])
    case Replied(_, Some(EndSubConversation(d))) =>
      var s2 := EndSub(s, d);
      if asked == s.primary then CallEnd(s2, Said(asked, first), Replacing(s, d))
      else if s2.pending.None? then CallEnd(s2, ResultMissingText, Replacing(s, d))
      else CallEnd(TakePending(s2), AnswerOf(s2.primary, second), Replacing(s, d) + PendingNote(s2))
  }

  /** `processMessage` on an existing session: `first` is what the chosen agent answers. */
  function Call<A(==)>(s: Session<A>, first: Outcome, available: string -> bool, newcomer: A, second: Outcome): CallEnd<A> {
    var end := Act(TakePending(s), Chosen(s), first, available, newcomer, second);
    end.(fates := PendingNote(s) + end.fates)
  }

  /** A call is its first half, taking the pending result, followed by `Act`. */
  lemma CallSplits<A>(s: Session<A>, fates: seq<Fate>, first: Outcome, available: string -> bool, newcomer: A, second: Outcome)
    ensures var acted, end := Act(TakePending(s), Chosen(s), first, available, newcomer, second),
                              Call(s, first, available, newcomer, second);
      end.session == acted.session && end.answer == acted.answer
      && fates + end.fates == (fates + PendingNote(s)) + acted.fates
  {}

  ghost predicate FitsCall<A>(s: Session<A>, first: Outcome, available: string -> bool, newcomer: A) {
    first.Replied? && first.signal.Some? && first.signal.value.RequestSubConversation? ==>
      Fits(s, first.signal.value.request.role, available(first.signal.value.request.role), newcomer)
  }

  // ---------- what a call answers and does, case by case ----------

  /** The signal in an agent's reply, if there is one to act on. */
  function SignalIn(o: Outcome): Option<Signal> {
    if o.Replied? then o.signal else None
  }

  /** An agent's words reach the caller as they are; a failed agent is an error text. */
  ghost predicate Quotes<A>(answer: Answer<A>, speaker: A, o: Outcome) {
    if o.Failed? then answer == ErrorText else answer == Said(speaker, o)
  }

  /** Who is asked first: the primary when a result waits for it, else the agent in control. */
  ghost predicate IsAsked<A>(s: Session<A>, asked: A) {
    asked == (if s.pending.Some? then s.primary else s.active)
  }

  /** Whose outcome the caller gets: the agent asked first without a signal to act on and when the
      primary itself ends; the specialist after a request for a known or available one, and an
      error otherwise; the primary, asked second, after a specialist's end. */
  ghost predicate Answers<A>(s: Session<A>, asked: A, first: Outcome, available: string -> bool, newcomer: A,
                             second: Outcome, answer: Answer<A>) {
    match SignalIn(first)
    case None => Quotes(answer, asked, first)
    case Some(SignalError) => Quotes(answer, asked, first)
    case Some(RequestSubConversation(r)) =>
      if r.role in s.specialists then Quotes(answer, s.specialists[r.role], second)
      else if available(r.role) then Quotes(answer, newcomer, second)
      else answer == ErrorText
    case Some(EndSubConversation(_)) =>
      if asked == s.primary then Quotes(answer, s.primary, first) else Quotes(answer, s.primary, second)
  }

  /** Who is in control afterwards, which specialists there are, and what waits for the primary. */
  ghost predicate HandsOver<A>(s: Session<A>, asked: A, first: Outcome, available: string -> bool, newcomer: A,
                               t: Session<A>) {
    && t.primary == s.primary
    && match SignalIn(first)
       case Some(RequestSubConversation(r)) =>
         && t.pending.None?
         && (if r.role in s.specialists then
               t.active == s.specialists[r.role] && t.role == Some(r.role) && t.specialists == s.specialists
             else if available(r.role) then
               t.active == newcomer && t.role == Some(r.role) && t.specialists == s.specialists[r.role := newcomer]
             else t.active == s.primary && t.role == None && t.specialists == s.specialists)
       case Some(EndSubConversation(d)) =>
         && t.active == s.primary && t.role == None && t.specialists == s.specialists
         && t.pending == (if asked == s.primary then Some(SpecialistResult(s.role, d)) else None)
       case _ =>
         t.active == s.active && t.role == s.role && t.specialists == s.specialists && t.pending.None?
  }

  lemma CallAnswers<A>(s: Session<A>, asked: A, first: Outcome, available: string -> bool, newcomer: A, second: Outcome)
    requires IsAsked(s, asked) && Consistent(s) && FitsCall(s, first, available, newcomer)
    ensures var end := Call(s, first, available, newcomer, second);
      && Answers(s, asked, first, available, newcomer, second, end.answer)
      && HandsOver(s, asked, first, available, newcomer, end.session)
  {
    match SignalIn(first)
    case Some(RequestSubConversation(r)) =>
      if r.role in s.specialists {
        assert s.specialists[r.role] in s.specialists.Values;
      }
    case _ =>
  }

  /** The error text comes back exactly when the first agent failed, the agent asked second did, or
      the requested specialist is neither known nor available. */
  lemma ErrorIff<A>(s: Session<A>, asked: A, first: Outcome, available: string -> bool, newcomer: A, second: Outcome)
    requires IsAsked(s, asked) && Consistent(s) && FitsCall(s, first, available, newcomer)
    ensures var known := (r: Request) => r.role in s.specialists || available(r.role);
      Call(s, first, available, newcomer, second).answer == ErrorText <==>
      match SignalIn(first)
      case Some(RequestSubConversation(r)) => !known(r) || second.Failed?
      case Some(EndSubConversation(_)) => asked != s.primary && second.Failed?
      case _ => first.Failed?
  {
    CallAnswers(s, asked, first, available, newcomer, second);
  }

  /** Between calls of a sequential client: consistent, and a pending result means that the
      primary is in control. */
  ghost predicate AtRest<A>(s: Session<A>) {
    Consistent(s) && (s.pending.Some? ==> s.role.None?)
  }

  /** Who spoke last hears next: the words returned are those of the agent in control after
      the call, and at rest the agent in control is the one the next message goes to. */
  lemma WhoSpeaksHearsNext<A>(s: Session<A>, first: Outcome, available: string -> bool, newcomer: A, second: Outcome)
    requires AtRest(s) && FitsCall(s, first, available, newcomer)
    ensures var end := Call(s, first, available, newcomer, second);
      && AtRest(end.session)
      && end.session.primary == s.primary
      && Chosen(s) == s.active && Chosen(end.session) == end.session.active
      && (end.answer.Said? ==> end.answer.speaker == end.session.active)
      && !end.answer.ResultMissingText?
  {
    var s1 := TakePending(s);
    match first
    case Replied(_, Some(RequestSubConversation(r))) =>
      StartSubConsistent(s1, r.role, available(r.role), newcomer);
    case _ =>
  }

  /** At rest, an END coming from a specialist is recorded under that specialist's own role. */
  lemma EndNamesItsSpecialist<A>(s: Session<A>, d: EndDetails)
    requires AtRest(s) && Chosen(s) != s.primary
    ensures var r := EndSub(TakePending(s), d).pending.value;
      r.endedRole.Some? && r.endedRole.value in s.specialists && s.specialists[r.endedRole.value] == Chosen(s)
  {}

  // ---------- where results go ----------

  function EndedIn(fates: seq<Fate>): seq<SpecialistResult> {
    if fates == [] then []
    else (if fates[0].Ended? then [fates[0].result] else []) + EndedIn(fates[1..])
  }

  function SettledIn(fates: seq<Fate>): seq<SpecialistResult> {
    if fates == [] then []
    else (if fates[0].Ended? then [] else [fates[0].result]) + SettledIn(fates[1..])
  }

  function PendingOf<A>(s: Session<A>): seq<SpecialistResult> {
    if s.pending.Some? then [s.pending.value] else []
  }

  /** Every accepted result has been noted, overwritten or dropped, once and in the order of
      acceptance, except the one still pending. */
  ghost predicate Conserved<A>(s: Session<A>, fates: seq<Fate>) {
    EndedIn(fates) == SettledIn(fates) + PendingOf(s)
  }

  lemma {:induction false} EndedSplit(a: seq<Fate>, b: seq<Fate>)
    ensures EndedIn(a + b) == EndedIn(a) + EndedIn(b)
  {
    if a == [] {
      assert a + b == b;
    } else {
      EndedSplit(a[1..], b);
      assert (a + b)[1..] == a[1..] + b && (a + b)[0] == a[0];
      var head := if a[0].Ended? then [a[0].result] else [];
      assert head + (EndedIn(a[1..]) + EndedIn(b)) == (head + EndedIn(a[1..])) + EndedIn(b);
    }
  }

  lemma {:induction false} SettledSplit(a: seq<Fate>, b: seq<Fate>)
    ensures SettledIn(a + b) == SettledIn(a) + SettledIn(b)
  {
    if a == [] {
      assert a + b == b;
    } else {
      SettledSplit(a[1..], b);
      assert (a + b)[1..] == a[1..] + b && (a + b)[0] == a[0];
      var head := if a[0].Ended? then [] else [a[0].result];
      assert head + (SettledIn(a[1..]) + SettledIn(b)) == (head + SettledIn(a[1..])) + SettledIn(b);
    }
  }

  lemma FatesSplit(a: seq<Fate>, b: seq<Fate>)
    ensures EndedIn(a + b) == EndedIn(a) + EndedIn(b)
    ensures SettledIn(a + b) == SettledIn(a) + SettledIn(b)
  {
    EndedSplit(a, b);
    SettledSplit(a, b);
  }

  /** Taking or dropping the pending result settles it. */
  lemma SettlePending<A>(s: Session<A>, fates: seq<Fate>, f: Fate)
    requires Conserved(s, fates) && s.pending == Some(f.result) && !f.Ended?
    ensures Conserved(TakePending(s), fates + [f])
  {
    FatesSplit(fates, [f]);
    assert EndedIn([f]) == [] && SettledIn([f]) == [f.result];
  }

  lemma EndSubConserves<A>(s: Session<A>, fates: seq<Fate>, d: EndDetails)
    requires Conserved(s, fates)
    ensures Conserved(EndSub(s, d), fates + Replacing(s, d))
  {
    var r := SpecialistResult(s.role, d);
    var mid := fates;
    if s.pending.Some? {
      SettlePending(s, fates, Overwritten(s.pending.value));
      mid := fates + [Overwritten(s.pending.value)];
    }
    assert Conserved(TakePending(s), mid);
    FatesSplit(mid, [Ended(r)]);
    assert EndedIn([Ended(r)]) == [r] && SettledIn([Ended(r)]) == [];
    assert fates + Replacing(s, d) == mid + [Ended(r)];
  }

  ghost predicate NothingOverwritten(fates: seq<Fate>) {
    forall f :: f in fates ==> !f.Overwritten?
  }

  lemma ActConserves<A>(s: Session<A>, fates: seq<Fate>, asked: A, first: Outcome, available: string -> bool, newcomer: A, second: Outcome)
    requires Conserved(s, fates) && s.pending.None?
    ensures var end := Act(s, asked, first, available, newcomer, second);
      Conserved(end.session, fates + end.fates) && NothingOverwritten(end.fates)
  {
    match first
    case Replied(_, Some(EndSubConversation(d))) =>
      EndSubConserves(s, fates, d);
      var s2, ended := EndSub(s, d), fates + Replacing(s, d);
      SettlePending(s2, ended, Noted(s2.pending.value));
      assert fates + (Replacing(s, d) + PendingNote(s2)) == ended + PendingNote(s2);
    case _ =>
      assert fates + [] == fates;
  }

  /** An uninterrupted call conserves results and never overwrites one. */
  lemma CallConserves<A>(s: Session<A>, fates: seq<Fate>, first: Outcome, available: string -> bool, newcomer: A, second: Outcome)
    requires Conserved(s, fates)
    ensures var end := Call(s, first, available, newcomer, second);
      Conserved(end.session, fates + end.fates) && NothingOverwritten(end.fates)
  {
    var noted := PendingNote(s);
    if s.pending.Some? {
      SettlePending(s, fates, Noted(s.pending.value));
    } else {
      assert fates + [] == fates;
    }
    ActConserves(TakePending(s), fates + noted, Chosen(s), first, available, newcomer, second);
    var acted := Act(TakePending(s), Chosen(s), first, available, newcomer, second).fates;
    assert fates + (noted + acted) == fates + noted + acted;
  }

  // ---------- runs of a sequential client ----------

  /** One operation on a session at a time. Ending a session discards its state; the next
      message opens a new one around a new primary agent. */
  datatype Operation<A> =
    | Process(first: Outcome, available: string -> bool, newcomer: A, second: Outcome)
    | ClearHistory
    | EndSession(newPrimary: A)

  function Discarded<A>(s: Session<A>): seq<Fate> {
    if s.pending.Some? then [Dropped(s.pending.value)] else []
  }

  function Perform<A(==)>(s: Session<A>, op: Operation<A>): (Session<A>, seq<Fate>) {
    match op
    case Process(first, available, newcomer, second) =>
      var end := Call(s, first, available, newcomer, second);
      (end.session, end.fates)
    case ClearHistory => (TakePending(s), Discarded(s))
    case EndSession(p) => (NewSession(p), Discarded(s))
  }

  /** Agents built along the way are new objects. */
  ghost predicate Possible<A>(s: Session<A>, ops: seq<Operation<A>>)
    decreases |ops|
  {
    ops != [] ==>
      && (ops[0].Process? ==> FitsCall(s, ops[0].first, ops[0].available, ops[0].newcomer))
      && Possible(Perform(s, ops[0]).0, ops[1..])
  }

  ghost function PerformAll<A>(s: Session<A>, ops: seq<Operation<A>>): (Session<A>, seq<Fate>)
    decreases |ops|
  {
    if ops == [] then (s, [])
    else
      var (s1, f1) := Perform(s, ops[0]);
      var (s2, f2) := PerformAll(s1, ops[1..]);
      (s2, f1 + f2)
  }

  /** Over any sequential run: the session is at rest after every operation, and every result a
      specialist handed back was noted to the primary agent exactly once and in order, unless
      it was dropped by clearing or ending the session or is still pending. None is lost to a
      later result. */
  lemma {:induction false} SequentialRun<A>(s: Session<A>, before: seq<Fate>, ops: seq<Operation<A>>)
    requires AtRest(s) && Possible(s, ops) && Conserved(s, before) && NothingOverwritten(before)
    ensures var (t, fates) := PerformAll(s, ops);
      AtRest(t) && Conserved(t, before + fates) && NothingOverwritten(before + fates)
    decreases |ops|
  {
    if ops == [] {
      assert before + [] == before;
    } else {
      var (s1, f1) := Perform(s, ops[0]);
      OperationKeeps(s, before, ops[0]);
      SequentialRun(s1, before + f1, ops[1..]);
      var (s2, f2) := PerformAll(s1, ops[1..]);
      assert before + (f1 + f2) == before + f1 + f2;
    }
  }

  lemma OperationKeeps<A>(s: Session<A>, before: seq<Fate>, op: Operation<A>)
    requires AtRest(s) && Conserved(s, before) && NothingOverwritten(before)
    requires op.Process? ==> FitsCall(s, op.first, op.available, op.newcomer)
    ensures var (t, fates) := Perform(s, op);
      AtRest(t) && Conserved(t, before + fates) && NothingOverwritten(before + fates)
  {
    match op
    case Process(first, available, newcomer, second) =>
      WhoSpeaksHearsNext(s, first, available, newcomer, second);
      CallConserves(s, before, first, available, newcomer, second);
    case _ =>
      if s.pending.Some? {
        SettlePending(s, before, Dropped(s.pending.value));
      } else {
        assert before + [] == before;
      }
  }
}
