/**
 One session id over time, with calls overlapping even while the session is opened or ended:
 `getOrCreateSessionState` looks for a state, awaits the coordinator and only then stores a new
 state, and `endSession` may run under a call. Calls keep the state object they were given, so
 several objects can be alive for one id.
 */
module SessionOpening {
  import opened Common
  import opened SubconversationTools
  import opened Protocol
  import opened Interleaving

  /** `states` are all state objects ever made for the id, each with its calls; `current` is the
      one in the manager's map, `coordinator` the agent in ChatManager's; `opening` are calls
      that found no state and await the coordinator their state will be built around. */
  datatype Sessions<A> = Sessions(
    states: map<nat, System<A>>, current: Option<nat>, coordinator: Option<A>, opening: map<nat, A>)

  datatype Move<A> =
    | LookUp(call: nat, built: A)
    | Open(call: nat, state: nat)
    | Inside(state: nat, event: Interleaving.Event<A>)
    | End

  ghost predicate Allowed<A>(m: Sessions<A>, e: Move<A>) {
    match e
    case LookUp(call, _) => m.current.None? && call !in m.opening
    case Open(call, k) => call in m.opening && k !in m.states
    case Inside(k, event) => k in m.states && Enabled(m.states[k], event)
    case End => true
  }

  function NewSystem<A>(primary: A): System<A> {
    System(NewSession(primary), map[], [])
  }

  ghost function Then<A>(m: Sessions<A>, e: Move<A>): Sessions<A>
    requires Allowed(m, e)
  {
    match e
    case LookUp(call, built) =>
      var agent := if m.coordinator.Some? then m.coordinator.value else built;
      m.(coordinator := Some(agent), opening := m.opening[call := agent])
    case Open(call, k) =>
      m.(states := m.states[k := NewSystem(m.opening[call])], current := Some(k), opening := m.opening - {call})
    case Inside(k, event) => m.(states := m.states[k := Interleaving.Next(m.states[k], event)])
    case End => m.(current := None, coordinator := None)
  }

  ghost predicate IsHistory<A>(m: Sessions<A>, moves: seq<Move<A>>)
    decreases |moves|
  {
    moves != [] ==> Allowed(m, moves[0]) && IsHistory(Then(m, moves[0]), moves[1..])
  }

  ghost function Later<A>(m: Sessions<A>, moves: seq<Move<A>>): Sessions<A>
    requires IsHistory(m, moves)
    decreases |moves|
  {
    if moves == [] then m else Later(Then(m, moves[0]), moves[1..])
  }

  /** Every state object is safe, whether it is still in the map or not. */
  ghost predicate AllSafe<A>(m: Sessions<A>) {
    && (m.current.Some? ==> m.current.value in m.states)
    && forall k :: k in m.states ==> Safe(m.states[k])
  }

  lemma NewSystemSafe<A>(primary: A)
    ensures Safe(NewSystem(primary))
  {}

  lemma MoveSafe<A>(m: Sessions<A>, e: Move<A>)
    requires AllSafe(m) && Allowed(m, e)
    ensures AllSafe(Then(m, e))
  {
    match e
    case Open(call, k) => NewSystemSafe(m.opening[call]);
    case Inside(k, event) => StepSafe(m.states[k], event);
    case _ =>
  }

  /** However calls, openings, clears and ends of the session interleave, every state object keeps
      its agent and role in step and its account of results balanced. */
  lemma {:induction false} AnyHistory<A>(m: Sessions<A>, moves: seq<Move<A>>)
    requires AllSafe(m) && IsHistory(m, moves)
    ensures AllSafe(Later(m, moves))
    decreases |moves|
  {
    if moves != [] {
      MoveSafe(m, moves[0]);
      AnyHistory(Then(m, moves[0]), moves[1..]);
    }
  }

  // ---------- states that are left behind ----------

  /** A state that is no longer in the map never comes back: what its calls do from then on, a
      handover to a specialist included, no later message will see. */
  lemma {:induction false} LeftBehindForGood<A>(m: Sessions<A>, moves: seq<Move<A>>, k: nat)
    requires IsHistory(m, moves) && k in m.states && m.current != Some(k)
    ensures k in Later(m, moves).states && Later(m, moves).current != Some(k)
    decreases |moves|
  {
    if moves != [] {
      LeftBehindForGood(Then(m, moves[0]), moves[1..], k);
    }
  }

  /** The current state is left behind by a history exactly when in it the session ends or a call
      that had found no state stores its own. */
  lemma {:induction false} LeftBehindIff<A>(m: Sessions<A>, moves: seq<Move<A>>, k: nat)
    requires IsHistory(m, moves) && k in m.states && m.current == Some(k)
    ensures Later(m, moves).current != Some(k) <==> exists i :: 0 <= i < |moves| && (moves[i].End? || moves[i].Open?)
    decreases |moves|
  {
    if moves != [] {
      var next, tail := Then(m, moves[0]), moves[1..];
      if moves[0].End? || moves[0].Open? {
        LeftBehindForGood(next, tail, k);
      } else {
        LeftBehindIff(next, tail, k);
        assert forall i :: 1 <= i < |moves| ==> moves[i] == tail[i - 1];
        if i :| 0 <= i < |tail| && (tail[i].End? || tail[i].Open?) {
          assert moves[i + 1] == tail[i];
        }
      }
    }
  }

  // ---------- exactly when a state is stored over another ----------

  predicate EndIn<A>(moves: seq<Move<A>>, from: nat, to: nat)
    requires from <= to <= |moves|
  {
    exists k :: from <= k < to && moves[k].End?
  }

  /** There is a state after these moves: one was there before and no End came, or one was stored
      and no End came after it. */
  predicate StateLeft<A>(stored: bool, moves: seq<Move<A>>) {
    || (stored && !EndIn(moves, 0, |moves|))
    || exists i :: 0 <= i < |moves| && moves[i].Open? && !EndIn(moves, i + 1, |moves|)
  }

  lemma EndInTail<A>(moves: seq<Move<A>>, from: nat, to: nat)
    requires moves != [] && 1 <= from <= to <= |moves|
    ensures EndIn(moves, from, to) <==> EndIn(moves[1..], from - 1, to - 1)
  {
    var tail := moves[1..];
    assert forall k :: 1 <= k < |moves| ==> moves[k] == tail[k - 1];
    if EndIn(moves, from, to) {
      var k :| from <= k < to && moves[k].End?;
      assert tail[k - 1].End?;
    }
    if EndIn(tail, from - 1, to - 1) {
      var k :| from - 1 <= k < to - 1 && tail[k].End?;
      assert moves[k + 1].End?;
    }
  }

  lemma EndInFirst<A>(moves: seq<Move<A>>, to: nat)
    requires 1 <= to <= |moves|
    ensures EndIn(moves, 0, to) <==> moves[0].End? || EndIn(moves, 1, to)
  {}

  /** Whether there is a state once the first move has been made. */
  function StoredAfter<A>(stored: bool, e: Move<A>): bool {
    e.Open? || (stored && !e.End?)
  }

  lemma StateLeftTail<A>(stored: bool, moves: seq<Move<A>>)
    requires moves != []
    ensures StateLeft(stored, moves) <==> StateLeft(StoredAfter(stored, moves[0]), moves[1..])
  {
    var tail, n := moves[1..], |moves|;
    EndInFirst(moves, n);
    EndInTail(moves, 1, n);
    if StateLeft(stored, moves) && !(stored && !EndIn(moves, 0, n)) {
      var i :| 0 <= i < n && moves[i].Open? && !EndIn(moves, i + 1, n);
      if i > 0 {
        EndInTail(moves, i + 1, n);
        assert tail[i - 1].Open?;
      }
    }
    var later := StoredAfter(stored, moves[0]);
    if StateLeft(later, tail) && !(later && !EndIn(tail, 0, n - 1)) {
      var i :| 0 <= i < n - 1 && tail[i].Open? && !EndIn(tail, i + 1, n - 1);
      EndInTail(moves, i + 2, n);
      assert moves[i + 1].Open?;
    }
  }

  /** The map holds a state exactly when one was stored, or there to begin with, and no End came
      since. */
  lemma {:induction false} CurrentIff<A>(m: Sessions<A>, moves: seq<Move<A>>)
    requires IsHistory(m, moves)
    ensures Later(m, moves).current.Some? <==> StateLeft(m.current.Some?, moves)
    decreases |moves|
  {
    if moves != [] {
      CurrentIff(Then(m, moves[0]), moves[1..]);
      StateLeftTail(m.current.Some?, moves);
    }
  }

  /** A call that found no state stores one over another exactly when, since it looked, another
      call has stored one and the session has not been ended after that. */
  lemma OpenReplacesIff<A>(m: Sessions<A>, look: Move<A>, between: seq<Move<A>>, open: Move<A>)
    requires Allowed(m, look) && look.LookUp? && IsHistory(Then(m, look), between)
    requires open.Open? && open.call == look.call && Allowed(Later(Then(m, look), between), open)
    ensures Later(Then(m, look), between).current.Some? <==>
            exists i :: 0 <= i < |between| && between[i].Open? && !EndIn(between, i + 1, |between|)
  {
    CurrentIff(Then(m, look), between);
  }

  /** No state is ever stored over another one. */
  ghost predicate NeverReplaced<A>(m: Sessions<A>, moves: seq<Move<A>>)
    requires IsHistory(m, moves)
    decreases |moves|
  {
    moves != [] ==>
      && (moves[0].Open? ==> m.current.None?)
      && NeverReplaced(Then(m, moves[0]), moves[1..])
  }

  /** No Open follows another Open, or a state that was there before, without an End between. */
  ghost predicate StoresApart<A>(stored: bool, moves: seq<Move<A>>) {
    forall j :: 0 <= j < |moves| && moves[j].Open? ==> !StateLeft(stored, moves[..j])
  }

  lemma StoresApartTail<A>(stored: bool, moves: seq<Move<A>>)
    requires moves != []
    ensures StoresApart(stored, moves) <==>
            (moves[0].Open? ==> !stored) && StoresApart(StoredAfter(stored, moves[0]), moves[1..])
  {
    var tail, later := moves[1..], StoredAfter(stored, moves[0]);
    assert StateLeft(stored, moves[..0]) == stored;
    forall j | 1 <= j < |moves|
      ensures moves[j] == tail[j - 1] && (StateLeft(stored, moves[..j]) <==> StateLeft(later, tail[..j - 1]))
    {
      StateLeftTail(stored, moves[..j]);
      assert moves[..j][1..] == tail[..j - 1];
    }
    if !StoresApart(later, tail) {
      var j :| 0 <= j < |tail| && tail[j].Open? && StateLeft(later, tail[..j]);
      assert moves[j + 1].Open?;
    }
  }

  /** Over any history: no state is stored over another one exactly when no Open follows another
      Open, or a state that was there before, without an End between. */
  lemma {:induction false} NeverReplacedIff<A>(m: Sessions<A>, moves: seq<Move<A>>)
    requires IsHistory(m, moves)
    ensures NeverReplaced(m, moves) <==> StoresApart(m.current.Some?, moves)
    decreases |moves|
  {
    if moves != [] {
      NeverReplacedIff(Then(m, moves[0]), moves[1..]);
      StoresApartTail(m.current.Some?, moves);
    }
  }

  /** A call looks for the state only while no other call is opening one. */
  ghost predicate OpensOneByOne<A>(m: Sessions<A>, moves: seq<Move<A>>)
    requires IsHistory(m, moves)
    decreases |moves|
  {
    moves != [] ==>
      && (moves[0].LookUp? ==> m.opening == map[])
      && OpensOneByOne(Then(m, moves[0]), moves[1..])
  }

  /** At most one call is opening, and only while there is no state. */
  ghost predicate OneOpening<A>(m: Sessions<A>) {
    && (forall a, b :: a in m.opening && b in m.opening ==> a == b)
    && (m.opening != map[] ==> m.current.None?)
  }

  lemma OneOpeningStep<A>(m: Sessions<A>, e: Move<A>)
    requires OneOpening(m) && Allowed(m, e) && (e.LookUp? ==> m.opening == map[])
    ensures OneOpening(Then(m, e))
  {
    match e
    case Open(call, k) =>
      assert forall a :: a in m.opening ==> a == call;
      assert m.opening - {call} == map[];
    case _ =>
  }

  /** Calls that do not look while another is opening never replace a state. */
  lemma {:induction false} OneByOneNeverReplaces<A>(m: Sessions<A>, moves: seq<Move<A>>)
    requires OneOpening(m) && IsHistory(m, moves) && OpensOneByOne(m, moves)
    ensures NeverReplaced(m, moves)
    decreases |moves|
  {
    if moves != [] {
      OneOpeningStep(m, moves[0]);
      if moves[0].Open? {
        assert moves[0].call in m.opening;
      }
      OneByOneNeverReplaces(Then(m, moves[0]), moves[1..]);
    }
  }

  lemma {:induction false} HistoryExtends<A>(m: Sessions<A>, moves: seq<Move<A>>, e: Move<A>)
    requires IsHistory(m, moves) && Allowed(Later(m, moves), e)
    ensures IsHistory(m, moves + [e]) && Later(m, moves + [e]) == Then(Later(m, moves), e)
    decreases |moves|
  {
    if moves == [] {
      assert [e][1..] == [] && [] + [e] == [e];
    } else {
      HistoryExtends(Then(m, moves[0]), moves[1..], e);
      assert (moves + [e])[1..] == moves[1..] + [e];
    }
  }

  function Start<A>(): Sessions<A> {
    Sessions(map[], None, None, map[])
  }

  /** A session that has ended is opened around a new coordinator. */
  lemma EndForgetsCoordinator<A>(m: Sessions<A>, call: nat, built: A)
    requires call !in m.opening
    ensures var ended := Then(m, End);
      && Allowed(ended, LookUp(call, built))
      && var looked := Then(ended, LookUp(call, built));
         call in looked.opening && looked.opening[call] == built && looked.coordinator == Some(built)
  {}

  /** Two calls find no state, and each stores one around the coordinator the first has built. */
  lemma TwoStates<A>(primary: A, other: A) returns (moves: seq<Move<A>>)
    ensures IsHistory(Start(), moves)
    ensures Later(Start(), moves)
         == Sessions(map[0 := NewSystem(primary), 1 := NewSystem(primary)], Some(1), Some(primary), map[])
  {
    moves := [];
    HistoryExtends(Start(), moves, LookUp(0, primary));
    moves := moves + [LookUp(0, primary)];
    HistoryExtends(Start(), moves, LookUp(1, other));
    moves := moves + [LookUp(1, other)];
    var m := Later(Start(), moves);
    assert m == Sessions(map[], None, Some(primary), map[0 := primary, 1 := primary]);
    HistoryExtends(Start(), moves, Open(0, 0));
    moves := moves + [Open(0, 0)];
    HistoryExtends(Start(), moves, Open(1, 1));
    moves := moves + [Open(1, 1)];
  }

  /** Two first messages at once: the first call then hands the conversation to a specialist, but
      in the state that has been replaced; the next message goes to the coordinator. */
  lemma RacingFirstMessages<A>(primary: A, specialist: A, r: Request) returns (moves: seq<Move<A>>)
    requires primary != specialist
    ensures IsHistory(Start(), moves)
    ensures var m := Later(Start(), moves);
      && 0 in m.states && m.states[0].session.active == specialist
      && 1 in m.states && m.current == Some(1) && Chosen(m.states[1].session) == primary
  {
    moves := TwoStates(primary, specialist);
    HistoryExtends(Start(), moves, Inside(0, Begin(0)));
    moves := moves + [Inside(0, Begin(0))];
    var m := Later(Start(), moves);
    assert m.states[0] == System(NewSession(primary), map[0 := AskedFirst(primary)], []);
    var handOver := FirstReply(0, Replied("", Some(RequestSubConversation(r))), true, specialist);
    HistoryExtends(Start(), moves, Inside(0, handOver));
    moves := moves + [Inside(0, handOver)];
  }
}
