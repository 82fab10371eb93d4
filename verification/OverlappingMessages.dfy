/**
 The copies of HistoryCopies when messages overlap: several agents, or several calls on one agent,
 push messages before earlier ones are persisted, and an append may fail on a key conflict.
 */
module OverlappingMessages {
  import opened Common
  import opened ConversationLog
  import HistoryCopies

  type Entry = HistoryCopies.Entry

  datatype Copy = Copy(history: seq<Message>, loading: HistoryCopies.Loading)

  /** `waiting` are the messages already in their authors' copies and not yet in the log, in the
      order in which they were pushed. */
  datatype Shared = Shared(log: seq<Entry>, copies: map<nat, Copy>, waiting: seq<Entry>)

  datatype Step =
    | Build(agent: nat)
    | LoadRead(agent: nat)
    | LoadAssign(agent: nat)
    | Push(agent: nat, message: Message)
    | Persist(which: nat)
    | Fail(which: nat)
    | ClearAll

  predicate Possible(y: Shared, e: Step) {
    match e
    case Build(a) => a !in y.copies
    case LoadRead(a) => a in y.copies && y.copies[a].loading.Issued?
    case LoadAssign(a) => a in y.copies && y.copies[a].loading.Read?
    case Push(a, _) => a in y.copies
    case Persist(i) => i < |y.waiting|
    case Fail(i) => i < |y.waiting|
    case ClearAll => true
  }

  function Without(es: seq<Entry>, i: nat): seq<Entry>
    requires i < |es|
  {
    es[..i] + es[i + 1..]
  }

  function Do(y: Shared, e: Step): Shared
    requires Possible(y, e)
  {
    match e
    case Build(a) => y.(copies := y.copies[a := Copy([], HistoryCopies.Issued)])
    case LoadRead(a) =>
      y.(copies := y.copies[a := y.copies[a].(loading := HistoryCopies.Read(HistoryCopies.Messages(y.log)))])
    case LoadAssign(a) => y.(copies := y.copies[a := Copy(y.copies[a].loading.snapshot, HistoryCopies.Assigned)])
    case Push(a, m) =>
      y.(copies := y.copies[a := y.copies[a].(history := y.copies[a].history + [m])],
         waiting := y.waiting + [HistoryCopies.Entry(a, m)])
    case Persist(i) => y.(log := y.log + [y.waiting[i]], waiting := Without(y.waiting, i))
    case Fail(i) => y.(waiting := Without(y.waiting, i))
    case ClearAll => y.(log := [], copies := map a | a in y.copies :: y.copies[a].(history := []))
  }

  /** What could separate an agent's copy from the log does not happen: its messages land in the
      order it pushed them and none of them fails, and the chat is not cleared between the read
      and the arrival of its load. */
  predicate Orderly(y: Shared, e: Step, a: nat)
    requires Possible(y, e)
  {
    match e
    case Persist(i) => y.waiting[i].author == a ==> forall k :: 0 <= k < i ==> y.waiting[k].author != a
    case Fail(i) => y.waiting[i].author != a
    case ClearAll => a in y.copies ==> !y.copies[a].loading.Read?
    case _ => true
  }

  function Pending(y: Shared, a: nat): seq<Message> {
    HistoryCopies.Own(a, y.waiting)
  }

  /** A copy ends in `n` messages that wait for the log; what comes before is part of the log. */
  ghost predicate EndsIn(copy: seq<Message>, own: seq<Message>, log: seq<Message>, n: nat) {
    && n <= |copy| && n <= |own|
    && copy[|copy| - n..] == own[|own| - n..]
    && Subsequence(copy[..|copy| - n], log)
  }

  ghost predicate EndsInPending(y: Shared, a: nat, n: nat)
    requires a in y.copies
  {
    EndsIn(y.copies[a].history, Pending(y, a), HistoryCopies.Messages(y.log), n)
  }

  ghost predicate Close(y: Shared, a: nat) {
    a in y.copies ==>
      && (exists n :: EndsInPending(y, a, n))
      && (y.copies[a].loading.Read? ==> Subsequence(y.copies[a].loading.snapshot, HistoryCopies.Messages(y.log)))
  }

  lemma {:induction false} OwnConcat(a: nat, s: seq<Entry>, t: seq<Entry>)
    ensures HistoryCopies.Own(a, s + t) == HistoryCopies.Own(a, s) + HistoryCopies.Own(a, t)
  {
    if s == [] {
      assert s + t == t;
    } else {
      OwnConcat(a, s[1..], t);
      assert (s + t)[1..] == s[1..] + t && (s + t)[0] == s[0];
      Associate(if s[0].author == a then [s[0].message] else [], HistoryCopies.Own(a, s[1..]), HistoryCopies.Own(a, t));
    }
  }

  lemma {:induction false} OwnOfOthers(a: nat, s: seq<Entry>)
    requires forall e :: e in s ==> e.author != a
    ensures HistoryCopies.Own(a, s) == []
  {
    if s != [] {
      assert s[0] in s;
      OwnOfOthers(a, s[1..]);
    }
  }

  /** Taking an entry out: another author's changes nothing, the first one of an author is its first
      message waiting. */
  lemma OwnWithout(a: nat, es: seq<Entry>, i: nat)
    requires i < |es|
    ensures es[i].author != a ==> HistoryCopies.Own(a, Without(es, i)) == HistoryCopies.Own(a, es)
    ensures es[i].author == a && (forall k :: 0 <= k < i ==> es[k].author != a) ==>
      HistoryCopies.Own(a, es) == [es[i].message] + HistoryCopies.Own(a, Without(es, i))
  {
    var s, t := es[..i], es[i + 1..];
    assert es == s + ([es[i]] + t);
    OwnConcat(a, s, [es[i]] + t);
    OwnConcat(a, [es[i]], t);
    OwnConcat(a, s, t);
    assert [es[i]][1..] == [];
    if forall k :: 0 <= k < i ==> es[k].author != a {
      OwnOfOthers(a, s);
    }
  }

  lemma LogGrows(log: seq<Entry>, e: Entry)
    ensures HistoryCopies.Messages(log + [e]) == HistoryCopies.Messages(log) + [e.message]
  {}

  lemma EndsInLongerLog(copy: seq<Message>, own: seq<Message>, log: seq<Message>, x: Message, n: nat)
    requires EndsIn(copy, own, log, n)
    ensures EndsIn(copy, own, log + [x], n)
  {
    SubsequenceGrows(copy[..|copy| - n], log, [x]);
  }

  /** The first message waiting lands. */
  lemma EndsInOneFewer(copy: seq<Message>, x: Message, own: seq<Message>, log: seq<Message>, n: nat) returns (m: nat)
    requires EndsIn(copy, [x] + own, log, n)
    ensures EndsIn(copy, own, log + [x], m)
  {
    var k := |copy| - n;
    var front := copy[..k];
    SubsequenceGrows(front, log, [x]);
    if n == |own| + 1 {
      m := n - 1;
      assert copy[k..] == [x] + own;
      assert copy[k] == copy[k..][0] == x;
      assert copy[..k + 1] == front + [x];
      assert copy[k + 1..] == copy[k..][1..] == own;
    } else {
      m := n;
      assert ([x] + own)[|own| + 1 - n..] == own[|own| - n..];
    }
  }

  lemma EndsInOneMore(copy: seq<Message>, own: seq<Message>, log: seq<Message>, x: Message, n: nat)
    requires EndsIn(copy, own, log, n)
    ensures EndsIn(copy + [x], own + [x], log, n + 1)
  {
    var k := |copy| - n;
    assert (copy + [x])[..k] == copy[..k];
    assert (copy + [x])[k..] == copy[k..] + [x];
    assert (own + [x])[|own| - n..] == own[|own| - n..] + [x];
  }

  lemma PersistClose(y: Shared, i: nat, a: nat, n: nat) returns (m: nat)
    requires i < |y.waiting| && a in y.copies && EndsInPending(y, a, n) && Orderly(y, Persist(i), a)
    ensures EndsInPending(Do(y, Persist(i)), a, m)
  {
    var e := y.waiting[i];
    var h, log, own := y.copies[a].history, HistoryCopies.Messages(y.log), HistoryCopies.Own(a, Without(y.waiting, i));
    OwnWithout(a, y.waiting, i);
    LogGrows(y.log, e);
    if e.author == a {
      m := EndsInOneFewer(h, e.message, own, log, n);
    } else {
      EndsInLongerLog(h, own, log, e.message, n);
      m := n;
    }
  }

  lemma PushClose(y: Shared, speaker: nat, x: Message, a: nat, n: nat) returns (m: nat)
    requires speaker in y.copies && a in y.copies && EndsInPending(y, a, n)
    ensures EndsInPending(Do(y, Push(speaker, x)), a, m)
  {
    HistoryCopies.OwnSplit(a, y.waiting, HistoryCopies.Entry(speaker, x));
    m := n;
    if speaker == a {
      EndsInOneMore(y.copies[a].history, Pending(y, a), HistoryCopies.Messages(y.log), x, n);
      m := n + 1;
    } else {
      assert Pending(Do(y, Push(speaker, x)), a) == Pending(y, a);
    }
  }

  /** A copy that is part of the log has nothing waiting at its end. */
  lemma SettledClose(y: Shared, a: nat)
    requires a in y.copies && Subsequence(y.copies[a].history, HistoryCopies.Messages(y.log))
    ensures EndsInPending(y, a, 0)
  {
    var h, own := y.copies[a].history, Pending(y, a);
    assert h[..|h|] == h && h[|h|..] == [] && own[|own|..] == [];
  }

  lemma OwnStepClose(y: Shared, e: Step, a: nat, n: nat) returns (m: nat)
    requires Possible(y, e) && a in y.copies && Orderly(y, e, a)
    requires EndsInPending(y, a, n)
    requires y.copies[a].loading.Read? ==> Subsequence(y.copies[a].loading.snapshot, HistoryCopies.Messages(y.log))
    ensures EndsInPending(Do(y, e), a, m)
  {
    m := n;
    match e
    case LoadAssign(b) =>
      if a == b {
        SettledClose(Do(y, e), a);
        m := 0;
      }
    case Push(b, x) => m := PushClose(y, b, x, a, n);
    case Persist(i) => m := PersistClose(y, i, a, n);
    case Fail(i) => OwnWithout(a, y.waiting, i);
    case ClearAll =>
      SettledClose(Do(y, e), a);
      m := 0;
    case _ =>
  }

  /** A snapshot that has been read stays part of the log. */
  lemma SnapshotClose(y: Shared, e: Step, a: nat)
    requires Possible(y, e) && a in y.copies && Orderly(y, e, a)
    requires y.copies[a].loading.Read? ==> Subsequence(y.copies[a].loading.snapshot, HistoryCopies.Messages(y.log))
    ensures var z := Do(y, e);
      z.copies[a].loading.Read? ==> Subsequence(z.copies[a].loading.snapshot, HistoryCopies.Messages(z.log))
  {
    match e
    case LoadRead(b) => SubsequenceSelf(HistoryCopies.Messages(y.log));
    case Persist(i) =>
      LogGrows(y.log, y.waiting[i]);
      if y.copies[a].loading.Read? {
        SubsequenceGrows(y.copies[a].loading.snapshot, HistoryCopies.Messages(y.log), [y.waiting[i].message]);
      }
    case _ =>
  }

  lemma StepClose(y: Shared, e: Step, a: nat)
    requires Possible(y, e) && Close(y, a) && Orderly(y, e, a)
    ensures Close(Do(y, e), a)
  {
    if a in y.copies {
      var n :| EndsInPending(y, a, n);
      var m := OwnStepClose(y, e, a, n);
      SnapshotClose(y, e, a);
    } else if e == Build(a) {
      SettledClose(Do(y, e), a);
    }
  }

  ghost predicate IsRun(y: Shared, steps: seq<Step>)
    decreases |steps|
  {
    steps != [] ==> Possible(y, steps[0]) && IsRun(Do(y, steps[0]), steps[1..])
  }

  ghost predicate OrderlyRun(y: Shared, steps: seq<Step>, a: nat)
    requires IsRun(y, steps)
    decreases |steps|
  {
    steps != [] ==> Orderly(y, steps[0], a) && OrderlyRun(Do(y, steps[0]), steps[1..], a)
  }

  ghost function After(y: Shared, steps: seq<Step>): Shared
    requires IsRun(y, steps)
    decreases |steps|
  {
    if steps == [] then y else After(Do(y, steps[0]), steps[1..])
  }

  lemma {:induction false} RunClose(y: Shared, steps: seq<Step>, a: nat)
    requires IsRun(y, steps) && OrderlyRun(y, steps, a) && Close(y, a)
    ensures Close(After(y, steps), a)
    decreases |steps|
  {
    if steps != [] {
      StepClose(y, steps[0], a);
      RunClose(Do(y, steps[0]), steps[1..], a);
    }
  }

  /** Over any run that is orderly for an agent, however messages, loads and the other agents'
      failures overlap: whenever none of its messages is waiting, its copy is a subsequence of
      the log. */
  lemma OverlappingCopiesAreSubsequences(y: Shared, steps: seq<Step>, a: nat)
    requires IsRun(y, steps) && OrderlyRun(y, steps, a) && Close(y, a)
    requires var z := After(y, steps); a in z.copies && Pending(z, a) == []
    ensures var z := After(y, steps); Subsequence(z.copies[a].history, HistoryCopies.Messages(z.log))
  {
    RunClose(y, steps, a);
    var z := After(y, steps);
    var n :| EndsInPending(z, a, n);
    assert z.copies[a].history[..|z.copies[a].history| - n] == z.copies[a].history;
  }

  // ---------- runs that are not orderly ----------

  lemma RunOfThree(y: Shared, a: Step, b: Step, c: Step)
    requires Possible(y, a) && Possible(Do(y, a), b) && Possible(Do(Do(y, a), b), c)
    ensures IsRun(y, [a, b, c]) && After(y, [a, b, c]) == Do(Do(Do(y, a), b), c)
  {
    var y1 := Do(y, a);
    var y2 := Do(y1, b);
    var y3 := Do(y2, c);
    assert [a, b, c][1..] == [b, c] && [b, c][1..] == [c] && [c][1..] == [];
    assert IsRun(y3, []) && After(y3, []) == y3;
    assert IsRun(y2, [c]) && After(y2, [c]) == y3;
    assert IsRun(y1, [b, c]) && After(y1, [b, c]) == y3;
  }

  /** An append that fails leaves its message in the author's copy alone. */
  lemma FailedStaysInCopy(m: Message)
    ensures var start, steps := Shared([], map[], []), [Build(0), Push(0, m), Fail(0)];
      && IsRun(start, steps)
      && var z := After(start, steps);
         && 0 in z.copies && Pending(z, 0) == []
         && !Subsequence(z.copies[0].history, HistoryCopies.Messages(z.log))
  {
    var start := Shared([], map[], []);
    var y := Do(Do(start, Build(0)), Push(0, m));
    assert y.waiting == [HistoryCopies.Entry(0, m)] && y.copies[0].history == [m];
    RunOfThree(start, Build(0), Push(0, m), Fail(0));
    assert Do(y, Fail(0)).waiting == [];
  }
}
