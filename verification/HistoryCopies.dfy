/**
 Several agents share one chat: each keeps a volatile copy of the history, loaded once by an
 un-awaited read when the agent is built, and every message is first pushed to its author's
 copy and then persisted. What a copy can be relative to the log, event by event.
 */
module HistoryCopies {
  import opened Common
  import opened ConversationLog

  /** A log entry and the agent that wrote it. */
  datatype Entry = Entry(author: nat, message: Message)

  /** Progress of the load issued by the constructor. */
  datatype Loading = Issued | Read(snapshot: seq<Message>) | Assigned

  /** `history` is the agent's own array. The numbers are positions in the log, kept for the
      statements below: its length when the agent was built, when its load read the table, and
      when its load was assigned. */
  datatype Copy = Copy(history: seq<Message>, loading: Loading, built: nat, readAt: nat, assignedAt: nat)

  /** `inFlight` is a message already in its author's copy and not yet persisted. */
  datatype System = System(log: seq<Entry>, copies: map<nat, Copy>, inFlight: Option<Entry>)

  datatype Event =
    | Build(agent: nat)
    | LoadRead(agent: nat)
    | LoadAssign(agent: nat)
    | Push(agent: nat, message: Message)
    | Persist
    | ClearAll

  /** Calls are sequential, so one message is in flight at a time; a chat is not cleared while
      a message or a load is. */
  predicate Enabled(y: System, e: Event) {
    match e
    case Build(a) => a !in y.copies
    case LoadRead(a) => a in y.copies && y.copies[a].loading.Issued?
    case LoadAssign(a) => a in y.copies && y.copies[a].loading.Read?
    case Push(a, _) => a in y.copies && y.inFlight.None?
    case Persist => y.inFlight.Some?
    case ClearAll => y.inFlight.None? && forall a :: a in y.copies ==> y.copies[a].loading.Assigned?
  }

  function Messages(es: seq<Entry>): (ms: seq<Message>)
    ensures |ms| == |es| && forall i :: 0 <= i < |es| ==> ms[i] == es[i].message
  {
    seq(|es|, i requires 0 <= i < |es| => es[i].message)
  }

  /** The entries written by one agent. */
  function Own(a: nat, es: seq<Entry>): seq<Message> {
    if es == [] then [] else (if es[0].author == a then [es[0].message] else []) + Own(a, es[1..])
  }

  /** The log with the message in flight already at its end. */
  function Spoken(y: System): seq<Entry> {
    y.log + if y.inFlight.Some? then [y.inFlight.value] else []
  }

  function Next(y: System, e: Event): System
    requires Enabled(y, e)
  {
    match e
    case Build(a) =>
      y.(copies := y.copies[a := Copy([], Issued, |Spoken(y)|, 0, 0)])
    case LoadRead(a) =>
      y.(copies := y.copies[a := y.copies[a].(loading := Read(Messages(y.log)), readAt := |y.log|)])
    case LoadAssign(a) =>
      y.(copies := y.copies[a := y.copies[a].(loading := Assigned, history := y.copies[a].loading.snapshot, assignedAt := |Spoken(y)|)])
    case Push(a, m) =>
      System(y.log, y.copies[a := y.copies[a].(history := y.copies[a].history + [m])], Some(Entry(a, m)))
    case Persist =>
      System(Spoken(y), y.copies, None)
    case ClearAll =>
      System([], map a | a in y.copies :: Copy([], Assigned, 0, 0, 0), None)
  }

  /** What a copy holds, exactly: before its load arrives, what the agent itself has said since it
      was built; afterwards, the log as the load read it and what the agent itself has said since
      the load arrived. */
  ghost predicate Exact(y: System, a: nat)
    requires a in y.copies
  {
    var c, all := y.copies[a], Spoken(y);
    if c.loading.Assigned? then
      && c.readAt <= c.assignedAt <= |all|
      && c.history == Messages(all[..c.readAt]) + Own(a, all[c.assignedAt..])
    else
      && c.built <= |all|
      && c.history == Own(a, all[c.built..])
      && (c.loading.Read? ==> c.readAt <= |all| && c.loading.snapshot == Messages(all[..c.readAt]))
  }

  ghost predicate AllExact(y: System) {
    forall a :: a in y.copies ==> Exact(y, a)
  }

  lemma {:induction false} OwnSplit(a: nat, es: seq<Entry>, e: Entry)
    ensures Own(a, es + [e]) == Own(a, es) + if e.author == a then [e.message] else []
  {
    if es == [] {
      assert es + [e] == [e];
    } else {
      OwnSplit(a, es[1..], e);
      assert (es + [e])[1..] == es[1..] + [e] && (es + [e])[0] == es[0];
      var h, t, last := if es[0].author == a then [es[0].message] else [], Own(a, es[1..]), if e.author == a then [e.message] else [];
      assert h + (t + last) == (h + t) + last;
    }
  }

  lemma OwnTail(a: nat, all: seq<Entry>, e: Entry, from: nat)
    requires from <= |all|
    ensures Own(a, (all + [e])[from..]) == Own(a, all[from..]) + if e.author == a then [e.message] else []
  {
    assert (all + [e])[from..] == all[from..] + [e];
    OwnSplit(a, all[from..], e);
  }

  lemma PushExact(y: System, speaker: nat, m: Message, a: nat)
    requires Enabled(y, Push(speaker, m)) && a in y.copies && Exact(y, a)
    ensures Exact(Next(y, Push(speaker, m)), a)
  {
    var c, all, e := y.copies[a], Spoken(y), Entry(speaker, m);
    var z := Next(y, Push(speaker, m));
    assert Spoken(z) == all + [e];
    if c.loading.Assigned? {
      OwnTail(a, all, e, c.assignedAt);
      assert (all + [e])[..c.readAt] == all[..c.readAt];
      Associate(Messages(all[..c.readAt]), Own(a, all[c.assignedAt..]), if speaker == a then [m] else []);
    } else {
      OwnTail(a, all, e, c.built);
      if c.loading.Read? {
        assert (all + [e])[..c.readAt] == all[..c.readAt];
      }
    }
  }

  lemma StepExact(y: System, e: Event)
    requires AllExact(y) && Enabled(y, e)
    ensures AllExact(Next(y, e))
  {
    var z := Next(y, e);
    forall a | a in z.copies ensures Exact(z, a) {
      match e
      case Build(b) => assert Spoken(z) == Spoken(y);
      case LoadRead(b) =>
        assert Spoken(z) == Spoken(y);
        assert Spoken(y)[..|y.log|] == y.log;
      case LoadAssign(b) => assert Spoken(z) == Spoken(y);
      case Push(b, m) => PushExact(y, b, m, a);
      case Persist => assert Spoken(z) == Spoken(y);
      case ClearAll =>
    }
  }

  ghost predicate IsRun(y: System, events: seq<Event>)
    decreases |events|
  {
    events != [] ==> Enabled(y, events[0]) && IsRun(Next(y, events[0]), events[1..])
  }

  ghost function After(y: System, events: seq<Event>): System
    requires IsRun(y, events)
    decreases |events|
  {
    if events == [] then y else After(Next(y, events[0]), events[1..])
  }

  lemma {:induction false} RunExact(y: System, events: seq<Event>)
    requires AllExact(y) && IsRun(y, events)
    ensures AllExact(After(y, events))
    decreases |events|
  {
    if events != [] {
      StepExact(y, events[0]);
      RunExact(Next(y, events[0]), events[1..]);
    }
  }

  // ---------- copies against the log ----------

  lemma {:induction false} OwnIsSubsequence(a: nat, es: seq<Entry>)
    ensures Subsequence(Own(a, es), Messages(es))
  {
    if es != [] {
      OwnIsSubsequence(a, es[1..]);
      assert Messages(es)[1..] == Messages(es[1..]);
      assert es[0].author == a ==> Own(a, es)[1..] == Own(a, es[1..]);
      assert es[0].author != a ==> Own(a, es) == Own(a, es[1..]);
    }
  }

  lemma {:induction false} OwnIsAllIff(a: nat, es: seq<Entry>)
    ensures |Own(a, es)| <= |es|
    ensures |Own(a, es)| == |es| <==> forall e :: e in es ==> e.author == a
  {
    if es != [] {
      OwnIsAllIff(a, es[1..]);
      assert es == [es[0]] + es[1..];
    }
  }

  lemma {:induction false} OwnIsAll(a: nat, es: seq<Entry>)
    requires forall e :: e in es ==> e.author == a
    ensures Own(a, es) == Messages(es)
  {
    if es != [] {
      assert es[0] in es;
      OwnIsAll(a, es[1..]);
      assert Messages(es) == [es[0].message] + Messages(es[1..]);
    }
  }

  lemma MessagesConcat(a: seq<Entry>, b: seq<Entry>)
    ensures Messages(a + b) == Messages(a) + Messages(b)
  {}

  lemma MessagesSplit(es: seq<Entry>, n: nat)
    requires n <= |es|
    ensures Messages(es) == Messages(es[..n]) + Messages(es[n..])
  {
    MessagesConcat(es[..n], es[n..]);
    assert es == es[..n] + es[n..];
  }

  lemma SubsequenceAround<T>(p: seq<T>, a: seq<T>, gap: seq<T>, b: seq<T>)
    requires Subsequence(a, b)
    ensures Subsequence(p + a, p + (gap + b))
  {
    SubsequenceLonger(a, gap, b);
    SubsequenceAfterPrefix(p, a, gap + b);
  }

  lemma MessagesInThree(es: seq<Entry>, r: nat, s: nat)
    requires r <= s <= |es|
    ensures Messages(es) == Messages(es[..r]) + (Messages(es[r..s]) + Messages(es[s..]))
  {
    var a, b, c := es[..r], es[r..s], es[s..];
    MessagesConcat(b, c);
    MessagesConcat(a, b + c);
    assert es == a + (b + c);
  }

  lemma PrefixAndOwn(es: seq<Entry>, a: nat, r: nat, s: nat)
    requires r <= s <= |es|
    ensures Subsequence(Messages(es[..r]) + Own(a, es[s..]), Messages(es))
  {
    OwnIsSubsequence(a, es[s..]);
    SubsequenceAround(Messages(es[..r]), Own(a, es[s..]), Messages(es[r..s]), Messages(es[s..]));
    MessagesInThree(es, r, s);
  }

  /** Over any run, late loads included: between messages every agent's copy is a subsequence
      of the shared log. */
  lemma CopiesAreSubsequences(y: System, events: seq<Event>, a: nat)
    requires AllExact(y) && IsRun(y, events)
    requires var z := After(y, events); a in z.copies && z.inFlight.None?
    ensures var z := After(y, events); Subsequence(z.copies[a].history, Messages(z.log))
  {
    RunExact(y, events);
    var z := After(y, events);
    var c := z.copies[a];
    assert Exact(z, a) && Spoken(z) == z.log;
    if c.loading.Assigned? {
      PrefixAndOwn(z.log, a, c.readAt, c.assignedAt);
    } else {
      PrefixAndOwn(z.log, a, 0, c.built);
      assert Messages(z.log[..0]) + c.history == c.history;
    }
  }

  /** A loaded copy equals the log exactly when nobody spoke between the load's read and its
      arrival, and nobody but the agent itself has spoken since. */
  lemma CopyEqualsLogIff(y: System, events: seq<Event>, a: nat)
    requires AllExact(y) && IsRun(y, events)
    requires var z := After(y, events); a in z.copies && z.inFlight.None? && z.copies[a].loading.Assigned?
    ensures var z := After(y, events);
      var c := z.copies[a];
      c.readAt <= c.assignedAt <= |z.log| &&
      (c.history == Messages(z.log) <==>
         c.readAt == c.assignedAt && forall e :: e in z.log[c.assignedAt..] ==> e.author == a)
  {
    RunExact(y, events);
    var z := After(y, events);
    var c := z.copies[a];
    assert Spoken(z) == z.log;
    var since := z.log[c.assignedAt..];
    OwnIsAllIff(a, since);
    if forall e :: e in since ==> e.author == a {
      OwnIsAll(a, since);
    }
    MessagesSplit(z.log, c.assignedAt);
    assert |c.history| == c.readAt + |Own(a, z.log[c.assignedAt..])|;
  }
}
