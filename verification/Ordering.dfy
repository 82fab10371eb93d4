/** The list `orderSubTasksByDependencies` returns, and the theorems about it. */
module Ordering {
  import opened Common
  import opened Plan
  import opened Scheduler
  import opened SchedulerProofs

  /** The plan in emission order, or the plan itself when fewer (or more) ids came out than
      there are tasks. */
  function Order(ts: seq<Task>): seq<Task> {
    var ids := EmittedIds(ts);
    if |ids| != |ts| then ts
    else
      EmittedAreKnown(ts);
      Lookup(TaskMap(ts), ids)
  }

  lemma EmittedAreKnown(ts: seq<Task>)
    ensures forall x :: x in EmittedIds(ts) ==> x in Known(ts)
  {
    var f := FinalState(ts);
  }

  // ---------- every plan ----------

  lemma CountedAtMostAsListed(ts: seq<Task>, f: Frontier, x: string)
    requires Counted(ts, f) && f.queue == []
    ensures multiset(f.emitted)[x] <= multiset(Keys(ts))[x]
  {
    assert f.emitted + f.queue == f.emitted;
    KeyIffKnown(ts, x);
    if x !in Known(ts) {
      assert x !in f.emitted + f.queue;
    }
  }

  /** No id comes out of the queue loop more often than the plan lists it. */
  lemma EmittedAtMostAsListed(ts: seq<Task>, x: string)
    ensures multiset(EmittedIds(ts))[x] <= multiset(Keys(ts))[x]
  {
    var f := FinalState(ts);
    CountedAtMostAsListed(ts, f, x);
  }

  /** So when the counts agree, the emitted ids are the plan's keys in some order. */
  lemma EmittedIsPermutationOfKeys(ts: seq<Task>)
    requires |EmittedIds(ts)| == |ts|
    ensures multiset(EmittedIds(ts)) == multiset(Keys(ts))
  {
    forall x ensures multiset(EmittedIds(ts))[x] <= multiset(Keys(ts))[x] {
      EmittedAtMostAsListed(ts, x);
    }
    var a, b := multiset(EmittedIds(ts)), multiset(Keys(ts));
    assert a <= b;
    assert b == a + (b - a);
    assert |b - a| == 0;
  }

  lemma {:induction false} LookupPermutes(m: map<string, Task>, a: seq<string>, b: seq<string>)
    requires forall k :: k in a ==> k in m
    requires multiset(a) == multiset(b)
    ensures forall k :: k in b ==> k in m
    ensures multiset(Lookup(m, a)) == multiset(Lookup(m, b))
    decreases |a|
  {
    SameMultisetSameLength(a, b);
    if a != [] {
      var i := Position(b, a[0]);
      var rest := b[..i] + b[i + 1..];
      RemoveMatching(a, b, i);
      LookupPermutes(m, a[1..], rest);
      LookupWithout(m, b, i);
      assert Lookup(m, a) == [m[a[0]]] + Lookup(m, a[1..]);
    }
  }

  lemma RemoveMatching(a: seq<string>, b: seq<string>, i: nat)
    requires multiset(a) == multiset(b) && a != []
    requires i < |b| && b[i] == a[0]
    ensures multiset(a[1..]) == multiset(b[..i] + b[i + 1..])
  {
    assert a == [a[0]] + a[1..];
    assert b == b[..i] + [b[i]] + b[i + 1..];
    assert multiset(a[1..]) == multiset(a) - multiset{a[0]};
    assert multiset(b[..i] + b[i + 1..]) == multiset(b) - multiset{b[i]};
  }

  lemma LookupWithout(m: map<string, Task>, b: seq<string>, i: nat)
    requires forall k :: k in b ==> k in m
    requires i < |b|
    ensures forall k :: k in b[..i] + b[i + 1..] ==> k in m
    ensures multiset(Lookup(m, b)) == multiset([m[b[i]]]) + multiset(Lookup(m, b[..i] + b[i + 1..]))
  {
    var rest := b[..i] + b[i + 1..];
    forall k | k in rest ensures k in b {
      if k in b[..i] { } else { assert k in b[i + 1..]; }
    }
    var r, q := Lookup(m, b), Lookup(m, rest);
    assert q == r[..i] + r[i + 1..];
    assert r == r[..i] + [r[i]] + r[i + 1..];
  }

  /** Tasks sharing a key are one and the same record. */
  predicate KeyDeterminesTask(ts: seq<Task>) {
    forall i, j :: 0 <= i < |ts| && 0 <= j < |ts| && ts[i].Key() == ts[j].Key() ==> ts[i] == ts[j]
  }

  lemma UniqueDeterminesTask(ts: seq<Task>)
    requires UniqueKeys(ts)
    ensures KeyDeterminesTask(ts)
  {}

  lemma LookupOfOwnKeys(ts: seq<Task>)
    requires KeyDeterminesTask(ts)
    ensures forall k :: k in Keys(ts) ==> k in TaskMap(ts)
    ensures Lookup(TaskMap(ts), Keys(ts)) == ts
  {
    KnownIsKeys(ts);
    var m := TaskMap(ts);
    forall i | 0 <= i < |ts| ensures Keys(ts)[i] in m && m[Keys(ts)[i]] == ts[i] {
      KeyKnown(ts, i);
      var t := m[ts[i].Key()];
      var j :| 0 <= j < |ts| && ts[j] == t;
    }
  }

  lemma DeterminedKeysPermute(ts: seq<Task>)
    requires |EmittedIds(ts)| == |ts| && KeyDeterminesTask(ts)
    ensures multiset(Order(ts)) == multiset(ts)
  {
    EmittedAreKnown(ts);
    EmittedIsPermutationOfKeys(ts);
    LookupPermutes(TaskMap(ts), EmittedIds(ts), Keys(ts));
    LookupOfOwnKeys(ts);
  }

  // ---------- plans with unique keys ----------

  lemma AllEmittedMeansAcyclic(ts: seq<Task>)
    requires UniqueKeys(ts) && |EmittedIds(ts)| == |ts|
    ensures Acyclic(ts)
  {
    var ids := EmittedIds(ts);
    var f := FinalState(ts);
    EmittedIsPermutationOfKeys(ts);
    SameMultisetSameLength(ids, Keys(ts));
    KnownIsKeys(ts);
    QueuedOnce(ts, f);
    forall p ensures !IsCycle(ts, p) {
      if IsCycle(ts, p) {
        var i := Position(ids, p[0]);
        var j := WalkGoesBack(ts, ids, p, i);
        assert false;
      }
    }
  }

  lemma Position(ids: seq<string>, x: string) returns (i: nat)
    requires x in ids
    ensures i < |ids| && ids[i] == x
  {
    i :| 0 <= i < |ids| && ids[i] == x;
  }

  /** Following dependencies only ever leads to earlier positions. */
  lemma {:induction false} WalkGoesBack(ts: seq<Task>, ids: seq<string>, p: seq<string>, i: nat) returns (j: nat)
    requires NoDuplicates(ids) && DependenciesFirst(ts, ids)
    requires IsWalk(ts, p) && i < |ids| && ids[i] == p[0]
    ensures j <= i && j < |ids| && ids[j] == p[|p| - 1]
    ensures |p| > 1 ==> j < i
    decreases |p|
  {
    if |p| == 1 {
      j := i;
    } else {
      assert DependsOn(ts, ids[i], p[1]);
      var k := Position(ids[..i], p[1]);
      SubWalk(ts, p, 1, |p|);
      j := WalkGoesBack(ts, ids, p[1..], k);
    }
  }

  /** A task never emitted waits for another such task. */
  lemma MissingWaits(ts: seq<Task>, f: Frontier, x: string)
    requires UniqueKeys(ts) && Counted(ts, f) && Tracked(ts, f) && f.queue == []
    requires x in Missing(ts, f)
    ensures HasDependencyIn(ts, Missing(ts, f), x)
  {
    var live := Missing(ts, f);
    QueuedOnce(ts, f);
    assert x !in f.emitted + f.queue;
    var i := IndexOfKey(ts, x);
    CountInZero(ts[i].dependsOn, live);
    var d :| d in ts[i].dependsOn && d in live;
    DependsOnIsListed(ts, i, d);
  }

  /** If some task is never emitted, the tasks left over all wait for one another. */
  lemma SomeNotEmittedMeansCyclic(ts: seq<Task>)
    requires UniqueKeys(ts) && |EmittedIds(ts)| != |ts|
    ensures !Acyclic(ts)
  {
    var f := FinalState(ts);
    var live := Missing(ts, f);
    forall x {:trigger HasDependencyIn(ts, live, x)} | x in live ensures HasDependencyIn(ts, live, x) {
      MissingWaits(ts, f, x);
    }
    assert live != {} by { SomeoneIsMissing(ts, f); }
    var x :| x in live;
    CycleUnrolls(ts, live, x, |ts|);
    LongChainCloses(ts, x, |ts|);
  }

  lemma SomeoneIsMissing(ts: seq<Task>, f: Frontier)
    requires UniqueKeys(ts) && Counted(ts, f) && f.queue == [] && |f.emitted| != |ts|
    ensures Missing(ts, f) != {}
  {
    QueuedOnce(ts, f);
    assert f.emitted + f.queue == f.emitted;
    KnownIsKeys(ts);
    SomeoneElse(f.emitted, Keys(ts));
  }

  lemma SomeoneElse(a: seq<string>, b: seq<string>)
    requires NoDuplicates(a) && NoDuplicates(b) && |a| != |b|
    requires forall x :: x in a ==> x in b
    ensures Elements(b) - Elements(a) != {}
  {
    ElementsCard(a);
    ElementsCard(b);
    var extra := Elements(b) - Elements(a);
    assert Elements(b) == Elements(a) + extra;
    assert |extra| > 0;
  }

  /** Cycle detection is exact: all tasks come out of the queue loop iff no task depends on
      itself, directly or through others. */
  lemma CycleDetectionExact(ts: seq<Task>)
    requires UniqueKeys(ts)
    ensures |EmittedIds(ts)| == |ts| <==> Acyclic(ts)
  {
    if |EmittedIds(ts)| == |ts| {
      AllEmittedMeansAcyclic(ts);
    } else {
      SomeNotEmittedMeansCyclic(ts);
    }
  }

  lemma AcyclicOrder(ts: seq<Task>)
    requires UniqueKeys(ts) && Acyclic(ts)
    ensures Keys(Order(ts)) == EmittedIds(ts)
    ensures DependenciesFirst(ts, Keys(Order(ts))) && DepthSorted(ts, Keys(Order(ts)))
  {
    assert |EmittedIds(ts)| == |ts| by { CycleDetectionExact(ts); }
    EmittedAreKnown(ts);
    assert Keys(Order(ts)) == EmittedIds(ts);
    var f := FinalState(ts);
  }

  /** What a caller gets: always the same tasks; the plan itself when it is cyclic; otherwise
      dependencies first and depths in order. */
  lemma OrderTheorem(ts: seq<Task>)
    requires UniqueKeys(ts)
    ensures multiset(Order(ts)) == multiset(ts)
    ensures !Acyclic(ts) ==> Order(ts) == ts
    ensures Acyclic(ts) ==> DependenciesFirst(ts, Keys(Order(ts))) && DepthSorted(ts, Keys(Order(ts)))
  {
    UniqueDeterminesTask(ts);
    if |EmittedIds(ts)| == |ts| {
      DeterminedKeysPermute(ts);
    }
    if Acyclic(ts) {
      AcyclicOrder(ts);
    } else {
      CycleDetectionExact(ts);
    }
  }
}
