/**
 Plans in general, repeated ids included: exactly when every task comes out of the queue loop,
 read off the plan itself, and what that means for cycle detection and for the result.
 */
module RepeatedIds {
  import opened Common
  import opened Plan
  import opened Scheduler
  import opened SchedulerProofs
  import opened Ordering

  // ---------- what emitted ids have released ----------

  /** How often the tasks keyed `x` list the given ids, each id counted as often as it occurs. */
  function ReleasedBy(ts: seq<Task>, ids: seq<string>, x: string): nat {
    if ids == [] then 0
    else ReleasedBy(ts, ids[..|ids| - 1], x) + Listings(ts, x, ids[|ids| - 1])
  }

  /** The ids outside a set, in order and with repetition. */
  function Outside(ids: seq<string>, s: set<string>): seq<string> {
    if ids == [] then []
    else (if ids[0] in s then [] else [ids[0]]) + Outside(ids[1..], s)
  }

  /** What `x` can get from the plan's tasks outside `s` if all of them run. */
  function Supply(ts: seq<Task>, s: set<string>, x: string): nat {
    ReleasedBy(ts, Outside(Keys(ts), s), x)
  }

  /** A task that waits for known dependencies is listed once. */
  ghost predicate WaitingListedOnce(ts: seq<Task>) {
    forall x :: x in Known(ts) && ListingsIn(ts, x, Known(ts)) > 0 ==> multiset(Keys(ts))[x] == 1
  }

  /** None of these ids can be the first of them to run: each lists more known dependencies than
      the rest of the plan supplies. */
  ghost predicate Stuck(ts: seq<Task>, s: set<string>) {
    && s != {} && s <= Known(ts)
    && forall x :: x in s ==> ListingsIn(ts, x, Known(ts)) > Supply(ts, s, x)
  }

  ghost predicate NoneStuck(ts: seq<Task>) {
    forall s :: !Stuck(ts, s)
  }

  lemma {:induction false} OutsideCounts(ids: seq<string>, s: set<string>, x: string)
    ensures multiset(Outside(ids, s))[x] == if x in s then 0 else multiset(ids)[x]
  {
    if ids != [] {
      OutsideCounts(ids[1..], s, x);
      CountHead(ids, x);
    }
  }

  lemma ReleasedBySnoc(ts: seq<Task>, ids: seq<string>, d: string, x: string)
    ensures ReleasedBy(ts, ids + [d], x) == ReleasedBy(ts, ids, x) + Listings(ts, x, d)
  {
    assert (ids + [d])[..|ids|] == ids;
  }

  lemma {:induction false} ReleasedBySplit(ts: seq<Task>, a: seq<string>, b: seq<string>, x: string)
    ensures ReleasedBy(ts, a + b, x) == ReleasedBy(ts, a, x) + ReleasedBy(ts, b, x)
    decreases |b|
  {
    if b == [] {
      assert a + b == a;
    } else {
      var init, last := b[..|b| - 1], b[|b| - 1];
      ReleasedBySplit(ts, a, init, x);
      assert a + b == (a + init) + [last];
      ReleasedBySnoc(ts, a + init, last, x);
    }
  }

  lemma ReleasedByWithout(ts: seq<Task>, ids: seq<string>, i: nat, x: string)
    requires i < |ids|
    ensures ReleasedBy(ts, ids, x) == ReleasedBy(ts, ids[..i] + ids[i + 1..], x) + Listings(ts, x, ids[i])
  {
    assert ids == (ids[..i] + [ids[i]]) + ids[i + 1..];
    ReleasedBySplit(ts, ids[..i] + [ids[i]], ids[i + 1..], x);
    ReleasedBySnoc(ts, ids[..i], ids[i], x);
    ReleasedBySplit(ts, ids[..i], ids[i + 1..], x);
  }

  /** More ids release more. */
  lemma {:induction false} ReleasedByMonotone(ts: seq<Task>, a: seq<string>, b: seq<string>, x: string)
    requires multiset(a) <= multiset(b)
    ensures ReleasedBy(ts, a, x) <= ReleasedBy(ts, b, x)
    decreases |a|
  {
    if a != [] {
      var init, last := a[..|a| - 1], a[|a| - 1];
      assert a == init + [last];
      assert last in multiset(a) && last in multiset(b);
      var i := Position(b, last);
      var rest := b[..i] + b[i + 1..];
      assert b == b[..i] + [b[i]] + b[i + 1..];
      assert multiset(init) == multiset(a) - multiset{last};
      assert multiset(rest) == multiset(b) - multiset{last};
      ReleasedByMonotone(ts, init, rest, x);
      ReleasedByWithout(ts, b, i, x);
    }
  }

  // ---------- the queue loop ----------

  /** For every plan: an in-degree is what the task lists less what the emitted ids released. */
  ghost predicate Balanced(ts: seq<Task>, f: Frontier) {
    && f.inDegree.Keys == Known(ts)
    && forall x :: x in Known(ts) ==>
         f.inDegree[x] == ListingsIn(ts, x, Known(ts)) - ReleasedBy(ts, f.emitted, x)
  }

  lemma BalancedInitially(ts: seq<Task>)
    ensures Balanced(ts, Initial(ts))
  {
    NetEffect(ts);
  }

  lemma BalancedStep(ts: seq<Task>, f: Frontier)
    requires Closed(NetOf(ts).graph, f) && f.queue != []
    requires Balanced(ts, f)
    ensures Balanced(ts, Step(NetOf(ts).graph, f))
  {
    var g, c := NetOf(ts).graph, f.queue[0];
    var r := Step(g, f);
    StepShape(g, f);
    forall x | x in Known(ts)
      ensures r.inDegree[x] == ListingsIn(ts, x, Known(ts)) - ReleasedBy(ts, r.emitted, x)
    {
      StepAt(g, f, x);
      NetEffect(ts);
      ReleasedBySnoc(ts, f.emitted, c, x);
    }
  }

  lemma {:induction false} RunBalanced(ts: seq<Task>, f: Frontier)
    requires Closed(NetOf(ts).graph, f) && Counted(ts, f) && Balanced(ts, f)
    ensures var r := Run(NetOf(ts).graph, f); r.queue == [] && Counted(ts, r) && Balanced(ts, r)
    decreases Measure(f)
  {
    if f.queue != [] {
      var g := NetOf(ts).graph;
      StepStaysClosed(g, f);
      CountedStep(ts, f);
      BalancedStep(ts, f);
      RunBalanced(ts, Step(g, f));
    }
  }

  lemma FinalBalance(ts: seq<Task>) returns (f: Frontier)
    ensures f.emitted == EmittedIds(ts) && f.queue == []
    ensures Counted(ts, f) && Balanced(ts, f)
  {
    InitialClosed(ts);
    CountedInitially(ts);
    BalancedInitially(ts);
    RunBalanced(ts, Initial(ts));
    f := Run(NetOf(ts).graph, Initial(ts));
  }

  // ---------- stuck ids never run ----------

  ghost predicate Avoids(f: Frontier, s: set<string>) {
    forall x :: x in f.emitted + f.queue ==> x !in s
  }

  lemma AtMostAsListed(ts: seq<Task>, f: Frontier, x: string)
    requires Counted(ts, f)
    ensures multiset(f.emitted + f.queue)[x] <= multiset(Keys(ts))[x]
  {
    KeyIffKnown(ts, x);
    if x !in Known(ts) {
      assert x !in f.emitted + f.queue;
    } else {
      assert x in multiset(Keys(ts));
    }
  }

  /** Ids that avoid a set release at most what the plan outside the set supplies. */
  lemma AvoidingReleasesAtMostSupply(ts: seq<Task>, f: Frontier, s: set<string>, ids: seq<string>, x: string)
    requires Counted(ts, f) && Avoids(f, s)
    requires ids <= f.emitted + f.queue
    ensures ReleasedBy(ts, ids, x) <= Supply(ts, s, x)
  {
    var all, outside := f.emitted + f.queue, Outside(Keys(ts), s);
    assert all == ids + all[|ids|..];
    forall d ensures multiset(ids)[d] <= multiset(outside)[d] {
      AtMostAsListed(ts, f, d);
      OutsideCounts(Keys(ts), s, d);
      if d in s {
        assert d !in all && d !in ids;
      }
    }
    ReleasedByMonotone(ts, ids, outside, x);
  }

  lemma BelowSupplyIsBlocked(ts: seq<Task>, f: Frontier, s: set<string>, x: string)
    requires Balanced(ts, f) && Stuck(ts, s) && x in s
    requires ReleasedBy(ts, f.emitted, x) <= Supply(ts, s, x)
    ensures x in f.inDegree && f.inDegree[x] > 0
  {}

  lemma EmittedNext(g: Graph, f: Frontier)
    requires Closed(g, f) && f.queue != []
    ensures Step(g, f).emitted <= f.emitted + f.queue
  {
    StepShape(g, f);
  }

  lemma StuckStaysBlocked(ts: seq<Task>, f: Frontier, s: set<string>, x: string)
    requires Closed(NetOf(ts).graph, f) && f.queue != []
    requires Counted(ts, f) && Balanced(ts, f) && Stuck(ts, s) && Avoids(f, s)
    requires x in s
    ensures x in Step(NetOf(ts).graph, f).inDegree && Step(NetOf(ts).graph, f).inDegree[x] > 0
  {
    BalancedStep(ts, f);
    var r := Step(NetOf(ts).graph, f);
    EmittedNext(NetOf(ts).graph, f);
    AvoidingReleasesAtMostSupply(ts, f, s, r.emitted, x);
    BelowSupplyIsBlocked(ts, r, s, x);
  }

  lemma StuckNotPushed(ts: seq<Task>, f: Frontier, s: set<string>, x: string)
    requires Closed(NetOf(ts).graph, f) && f.queue != []
    requires Counted(ts, f) && Balanced(ts, f) && Stuck(ts, s) && Avoids(f, s)
    requires x in s
    ensures x !in Pushed(NetOf(ts).graph, f)
  {
    StuckStaysBlocked(ts, f, s, x);
    StepAt(NetOf(ts).graph, f, x);
    assert multiset(Pushed(NetOf(ts).graph, f))[x] == 0;
  }

  lemma AvoidsStep(ts: seq<Task>, f: Frontier, s: set<string>)
    requires Closed(NetOf(ts).graph, f) && f.queue != []
    requires Counted(ts, f) && Balanced(ts, f) && Stuck(ts, s) && Avoids(f, s)
    ensures Avoids(Step(NetOf(ts).graph, f), s)
  {
    var g := NetOf(ts).graph;
    var r := Step(g, f);
    StepShape(g, f);
    forall x | x in r.emitted + r.queue ensures x !in s {
      if x !in f.emitted + f.queue {
        assert x in Pushed(g, f);
        if x in s {
          StuckNotPushed(ts, f, s, x);
        }
      }
    }
  }

  lemma {:induction false} RunAvoids(ts: seq<Task>, f: Frontier, s: set<string>)
    requires Closed(NetOf(ts).graph, f) && Counted(ts, f) && Balanced(ts, f)
    requires Stuck(ts, s) && Avoids(f, s)
    ensures Avoids(Run(NetOf(ts).graph, f), s)
    decreases Measure(f)
  {
    if f.queue != [] {
      var g := NetOf(ts).graph;
      StepStaysClosed(g, f);
      CountedStep(ts, f);
      BalancedStep(ts, f);
      AvoidsStep(ts, f, s);
      RunAvoids(ts, Step(g, f), s);
    }
  }

  lemma AvoidsInitially(ts: seq<Task>, s: set<string>)
    requires Stuck(ts, s)
    ensures Avoids(Initial(ts), s)
  {
    var f := Initial(ts);
    forall x | x in f.emitted + f.queue ensures x !in s {
      QueuedInitially(ts, x);
      NetEffect(ts);
      assert x in f.queue && x in multiset(f.queue);
    }
  }

  lemma StuckNeverEmitted(ts: seq<Task>, s: set<string>, x: string)
    requires Stuck(ts, s) && x in s
    ensures x !in EmittedIds(ts)
  {
    InitialClosed(ts);
    CountedInitially(ts);
    BalancedInitially(ts);
    AvoidsInitially(ts, s);
    RunAvoids(ts, Initial(ts), s);
    var r := Run(NetOf(ts).graph, Initial(ts));
    assert r.emitted <= r.emitted + r.queue;
    assert forall y :: y in r.emitted ==> y in r.emitted + r.queue;
  }

  // ---------- what is left over is stuck ----------

  /** How often an id has come out when the queue is empty. */
  lemma FinalCount(ts: seq<Task>, f: Frontier, x: string)
    requires Counted(ts, f) && f.queue == [] && x in Known(ts)
    ensures multiset(Keys(ts))[x] > 0
    ensures multiset(f.emitted)[x] ==
            if ListingsIn(ts, x, Known(ts)) == 0 then multiset(Keys(ts))[x] else if f.inDegree[x] > 0 then 0 else 1
  {
    NetEffect(ts);
    KeyIffKnown(ts, x);
    assert x in multiset(Keys(ts));
    assert f.emitted + f.queue == f.emitted;
  }

  lemma LeftOverGotItsSupply(ts: seq<Task>, f: Frontier, x: string)
    requires WaitingListedOnce(ts) && Counted(ts, f) && f.queue == []
    ensures Supply(ts, Missing(ts, f), x) <= ReleasedBy(ts, f.emitted, x)
  {
    var live := Missing(ts, f);
    var outside := Outside(Keys(ts), live);
    forall d ensures multiset(outside)[d] <= multiset(f.emitted)[d] {
      OutsideCounts(Keys(ts), live, d);
      KeyIffKnown(ts, d);
      if d in Known(ts) && d !in live {
        FinalCount(ts, f, d);
        assert d in multiset(f.emitted);
      }
    }
    ReleasedByMonotone(ts, outside, f.emitted, x);
  }

  lemma LeftOverIsStuck(ts: seq<Task>, f: Frontier)
    requires WaitingListedOnce(ts) && Counted(ts, f) && Balanced(ts, f) && f.queue == []
    requires Missing(ts, f) != {}
    ensures Stuck(ts, Missing(ts, f))
  {
    var live := Missing(ts, f);
    forall x | x in live ensures ListingsIn(ts, x, Known(ts)) > Supply(ts, live, x) {
      FinalCount(ts, f, x);
      assert multiset(f.emitted)[x] == 0;
      LeftOverGotItsSupply(ts, f, x);
    }
  }

  // ---------- the exact condition ----------

  lemma AllEmittedMeans(ts: seq<Task>)
    requires |EmittedIds(ts)| == |ts|
    ensures WaitingListedOnce(ts) && NoneStuck(ts)
  {
    var f := FinalBalance(ts);
    EmittedIsPermutationOfKeys(ts);
    forall x | x in Known(ts) && ListingsIn(ts, x, Known(ts)) > 0 ensures multiset(Keys(ts))[x] == 1 {
      FinalCount(ts, f, x);
    }
    forall s ensures !Stuck(ts, s) {
      if Stuck(ts, s) {
        var x :| x in s;
        FinalCount(ts, f, x);
        assert x in multiset(f.emitted) && x in EmittedIds(ts);
        StuckNeverEmitted(ts, s, x);
      }
    }
  }

  lemma AllOutAsListed(ts: seq<Task>, f: Frontier, x: string)
    requires WaitingListedOnce(ts) && Counted(ts, f) && f.queue == [] && Missing(ts, f) == {}
    ensures multiset(f.emitted)[x] == multiset(Keys(ts))[x]
  {
    KeyIffKnown(ts, x);
    CountedAtMostAsListed(ts, f, x);
    if x in Known(ts) {
      assert x !in Missing(ts, f);
      assert x in multiset(f.emitted);
      FinalCount(ts, f, x);
    }
  }

  lemma NothingStuckMeansAllEmitted(ts: seq<Task>)
    requires WaitingListedOnce(ts) && NoneStuck(ts)
    ensures |EmittedIds(ts)| == |ts|
  {
    var f := FinalBalance(ts);
    var ids, listed := f.emitted, Keys(ts);
    assert Missing(ts, f) == {} by {
      if Missing(ts, f) != {} {
        LeftOverIsStuck(ts, f);
      }
    }
    forall x ensures multiset(ids)[x] == multiset(listed)[x] {
      AllOutAsListed(ts, f, x);
    }
    SameCountsSameLength(ids, listed);
  }

  lemma SameCountsSameLength(a: seq<string>, b: seq<string>)
    requires forall x :: multiset(a)[x] == multiset(b)[x]
    ensures |a| == |b|
  {
    assert multiset(a) == multiset(b);
    SameMultisetSameLength(a, b);
  }

  /** For every plan: as many ids as tasks come out of the queue loop exactly when tasks that
      wait are listed once and no set of ids is stuck. */
  lemma EmitsAllIff(ts: seq<Task>)
    ensures |EmittedIds(ts)| == |ts| <==> WaitingListedOnce(ts) && NoneStuck(ts)
  {
    if |EmittedIds(ts)| == |ts| {
      AllEmittedMeans(ts);
    } else if WaitingListedOnce(ts) && NoneStuck(ts) {
      NothingStuckMeansAllEmitted(ts);
    }
  }

  // ---------- cycles ----------

  lemma {:induction false} CountInSplits(deps: seq<string>, s: set<string>, a: set<string>, b: set<string>)
    requires s <= a + b
    ensures CountIn(deps, s) <= CountIn(deps, a) + CountIn(deps, b)
  {
    if deps != [] {
      CountInSplits(deps[1..], s, a, b);
    }
  }

  lemma {:induction false} ListingsInSplits(ts: seq<Task>, x: string, s: set<string>, a: set<string>, b: set<string>)
    requires s <= a + b
    ensures ListingsIn(ts, x, s) <= ListingsIn(ts, x, a) + ListingsIn(ts, x, b)
  {
    if ts != [] {
      ListingsInSplits(ts[1..], x, s, a, b);
      CountInSplits(ts[0].dependsOn, s, a, b);
    }
  }

  lemma {:induction false} CountInOne(deps: seq<string>, d: string)
    ensures CountIn(deps, {d}) == multiset(deps)[d]
  {
    if deps != [] {
      CountInOne(deps[1..], d);
      CountHead(deps, d);
    }
  }

  lemma {:induction false} ListingsInOne(ts: seq<Task>, x: string, d: string)
    ensures ListingsIn(ts, x, {d}) == Listings(ts, x, d)
  {
    if ts != [] {
      ListingsInOne(ts[1..], x, d);
      CountInOne(ts[0].dependsOn, d);
    }
  }

  lemma {:induction false} ReleasedByCovers(ts: seq<Task>, ids: seq<string>, x: string)
    ensures ListingsIn(ts, x, Elements(ids)) <= ReleasedBy(ts, ids, x)
    decreases |ids|
  {
    if ids == [] {
      NothingInNothing(ts, x);
    } else {
      var init, last := ids[..|ids| - 1], ids[|ids| - 1];
      assert ids == init + [last];
      ReleasedByCovers(ts, init, x);
      ListingsInSplits(ts, x, Elements(ids), Elements(init), {last});
      ListingsInOne(ts, x, last);
    }
  }

  lemma {:induction false} CountInNothing(deps: seq<string>)
    ensures CountIn(deps, {}) == 0
  {
    if deps != [] {
      CountInNothing(deps[1..]);
    }
  }

  lemma {:induction false} NothingInNothing(ts: seq<Task>, x: string)
    ensures ListingsIn(ts, x, Elements([])) == 0
  {
    assert Elements<string>([]) == {};
    if ts != [] {
      NothingInNothing(ts[1..], x);
      CountInNothing(ts[0].dependsOn);
    }
  }

  lemma {:induction false} SomethingListed(ts: seq<Task>, us: seq<Task>, x: string, s: set<string>)
    requires s <= Known(ts) && (forall t :: t in us ==> t in ts)
    requires ListingsIn(us, x, s) > 0
    ensures HasDependencyIn(ts, s, x)
    decreases |us|
  {
    if us[0].Key() == x && CountIn(us[0].dependsOn, s) > 0 {
      CountInZero(us[0].dependsOn, s);
      var d :| d in us[0].dependsOn && d in s;
      assert us[0] in ts && DependsOn(ts, x, d);
    } else {
      SomethingListed(ts, us[1..], x, s);
    }
  }

  /** Every stuck id depends on a stuck id. */
  lemma StuckWaits(ts: seq<Task>, s: set<string>, x: string)
    requires Stuck(ts, s) && x in s
    ensures HasDependencyIn(ts, s, x)
  {
    var outside := Outside(Keys(ts), s);
    forall d | d in Known(ts) ensures d in s + Elements(outside) {
      KeyIffKnown(ts, d);
      OutsideCounts(Keys(ts), s, d);
      if d !in s {
        assert d in multiset(Keys(ts)) && d in multiset(outside);
      }
    }
    ListingsInSplits(ts, x, Known(ts), s, Elements(outside));
    ReleasedByCovers(ts, outside, x);
    SomethingListed(ts, ts, x, s);
  }

  lemma StuckMeansCyclic(ts: seq<Task>, s: set<string>)
    requires Stuck(ts, s)
    ensures !Acyclic(ts)
  {
    forall x {:trigger HasDependencyIn(ts, s, x)} | x in s ensures HasDependencyIn(ts, s, x) {
      StuckWaits(ts, s, x);
    }
    var x :| x in s;
    CycleUnrolls(ts, s, x, |ts|);
    LongChainCloses(ts, x, |ts|);
  }

  /** An acyclic plan is reordered exactly when its waiting tasks are listed once; otherwise the
      code reports a cycle that is not there. */
  lemma AcyclicPassesIff(ts: seq<Task>)
    requires Acyclic(ts)
    ensures |EmittedIds(ts)| == |ts| <==> WaitingListedOnce(ts)
  {
    EmitsAllIff(ts);
    forall s ensures !Stuck(ts, s) {
      if Stuck(ts, s) {
        StuckMeansCyclic(ts, s);
      }
    }
  }

  /** For every plan: the count test agrees with the dependency relation exactly when, for an
      acyclic plan, waiting tasks are listed once, and for a cyclic one, some waiting task is
      listed twice or some set of ids is stuck. */
  lemma CycleTestCorrectIff(ts: seq<Task>)
    ensures (|EmittedIds(ts)| == |ts| <==> Acyclic(ts)) <==>
            if Acyclic(ts) then WaitingListedOnce(ts) else !(WaitingListedOnce(ts) && NoneStuck(ts))
  {
    if Acyclic(ts) {
      AcyclicPassesIff(ts);
    } else {
      EmitsAllIff(ts);
    }
  }

  /** Unique ids satisfy both halves, so this is where exact detection comes from. */
  lemma UniqueListedOnce(ts: seq<Task>)
    requires UniqueKeys(ts)
    ensures WaitingListedOnce(ts)
    ensures NoneStuck(ts) <==> Acyclic(ts)
  {
    KnownIsKeys(ts);
    forall x | x in Known(ts) ensures multiset(Keys(ts))[x] == 1 {
      OccursOnce(Keys(ts), x);
    }
    EmitsAllIff(ts);
    CycleDetectionExact(ts);
  }

  // ---------- the result ----------

  lemma LookupMisses(m: map<string, Task>, ks: seq<string>, t: Task)
    requires forall k :: k in ks ==> k in m && m[k] != t
    ensures t !in Lookup(m, ks)
  {
    forall n | 0 <= n < |ks| ensures Lookup(m, ks)[n] != t {
      assert ks[n] in ks;
    }
  }

  lemma SharedKeyLosesTask(ts: seq<Task>)
    requires |EmittedIds(ts)| == |ts| && !KeyDeterminesTask(ts)
    ensures exists t :: t in ts && t !in Order(ts)
  {
    var ids, m := EmittedIds(ts), TaskMap(ts);
    EmittedAreKnown(ts);
    var i, j :| 0 <= i < |ts| && 0 <= j < |ts| && ts[i].Key() == ts[j].Key() && ts[i] != ts[j];
    KeyKnown(ts, i);
    var lost := if m[ts[i].Key()] == ts[i] then ts[j] else ts[i];
    LookupMisses(m, ids, lost);
    assert lost in ts;
  }

  /** For every plan: the result reorders the plan exactly when a waiting task is listed twice,
      or some set of ids is stuck (the plan is then returned as it was), or tasks with equal ids
      are equal. */
  lemma OrderIsPermutationIff(ts: seq<Task>)
    ensures multiset(Order(ts)) == multiset(ts)
        <==> !WaitingListedOnce(ts) || !NoneStuck(ts) || KeyDeterminesTask(ts)
  {
    EmitsAllIff(ts);
    if |EmittedIds(ts)| == |ts| {
      if KeyDeterminesTask(ts) {
        DeterminedKeysPermute(ts);
      } else {
        SharedKeyLosesTask(ts);
        var t :| t in ts && t !in Order(ts);
        assert t in multiset(ts) && t !in multiset(Order(ts));
      }
    }
  }

  // ---------- a cycle that passes undetected ----------

  function Named(id: string, deps: seq<string>): Task {
    Task(id, "", "", "", "", false, deps)
  }

  /** `x` waits for itself, and the id `a` is used twice. */
  function HiddenCycle(a: string, x: string): seq<Task> {
    [Named(a, []), Named(a, []), Named(x, [a, x])]
  }

  /** Ids are meant to be unique. When they are not, a dependant is released once per copy of
      its dependency, and a genuine cycle passes undetected. */
  lemma DuplicateIdsHideCycle(a: string, x: string)
    requires a != "" && x != "" && a != x
    ensures !UniqueKeys(HiddenCycle(a, x))
    ensures !Acyclic(HiddenCycle(a, x))
    ensures EmittedIds(HiddenCycle(a, x)) == [a, a, x]
  {
    var ts := HiddenCycle(a, x);
    assert ts[0].Key() == ts[1].Key();
    assert ts[2] in ts && ts[2].Key() == x;
    assert DependsOn(ts, x, x);
    assert IsCycle(ts, [x, x]);
    HiddenCycleRun(a, x);
  }

  lemma AddTwoDependencies(a: string, x: string)
    requires a != x
    ensures AddDependencies(Net(map[a := [], x := []], map[a := 0, x := 0]), x, [a, x])
         == Net(map[a := [x], x := [x]], map[a := 0, x := 2])
  {
    var n0 := Net(map[a := [], x := []], map[a := 0, x := 0]);
    var n1 := Net(map[a := [x], x := []], map[a := 0, x := 1]);
    var n2 := Net(map[a := [x], x := [x]], map[a := 0, x := 2]);
    assert [a, x][1..] == [x];
    assert n0.graph[a] + [x] == [x];
    assert n1.graph == n0.graph[a := [x]];
    assert n1.inDegree == n0.inDegree[x := 1];
    assert AddDependencies(n0, x, [a, x]) == AddDependencies(n1, x, [x]);
    assert n1.graph[x] + [x] == [x];
    assert n2.graph == n1.graph[x := [x]];
    assert n2.inDegree == n1.inDegree[x := 2];
    assert AddDependencies(n1, x, [x]) == AddDependencies(n2, x, []);
  }

  lemma HiddenCycleKeys(a: string, x: string)
    requires a != "" && x != ""
    ensures Keys(HiddenCycle(a, x)) == [a, a, x]
    ensures Known(HiddenCycle(a, x)) == {a, x}
  {
    var ts := HiddenCycle(a, x);
    assert Keys(ts) == [a, a, x];
    KnownIsKeys(ts);
    assert Elements([a, a, x]) == {a, x};
  }

  lemma HiddenCycleNet(a: string, x: string)
    requires a != "" && x != "" && a != x
    ensures NetOf(HiddenCycle(a, x)) == Net(map[a := [x], x := [x]], map[a := 0, x := 2])
  {
    var ts := HiddenCycle(a, x);
    HiddenCycleKeys(a, x);
    var n0: Net := Net(map[a := [], x := []], map[a := 0, x := 0]);
    assert EmptyNet(ts).graph == n0.graph;
    assert EmptyNet(ts).inDegree == n0.inDegree;
    AddTwoDependencies(a, x);
    AddLast(n0, ts);
  }

  lemma AddLast(n0: Net, ts: seq<Task>)
    requires |ts| == 3 && ts[0].dependsOn == ts[1].dependsOn == [] && Known(ts) <= n0.inDegree.Keys
    ensures ts[2].Key() in n0.inDegree
    ensures AddTasks(n0, ts) == AddDependencies(n0, ts[2].Key(), ts[2].dependsOn)
  {
    KeyKnown(ts, 2);
    assert AddTasks(n0, ts) == AddTasks(n0, ts[1..]);
    assert AddTasks(n0, ts[1..]) == AddTasks(n0, ts[1..][1..]);
    assert ts[1..][1..] == [ts[2]];
    assert [ts[2]][1..] == [];
    assert AddTasks(n0, [ts[2]]) == AddTasks(AddDependencies(n0, ts[2].Key(), ts[2].dependsOn), []);
  }

  lemma HiddenCycleStart(a: string, x: string)
    requires a != "" && x != "" && a != x
    ensures Initial(HiddenCycle(a, x)) == Frontier(map[a := 0, x := 2], [a, a], [])
  {
    HiddenCycleNet(a, x);
    HiddenCycleKeys(a, x);
    var deg: Degrees := map[a := 0, x := 2];
    assert [a, a, x][1..] == [a, x] && [a, x][1..] == [x];
    assert Sources(deg, [x]) == [];
    assert Sources(deg, [a, x]) == [a] + Sources(deg, [x]);
    assert Sources(deg, [a, a, x]) == [a] + Sources(deg, [a, x]);
  }

  lemma HiddenCycleRun(a: string, x: string)
    requires a != "" && x != "" && a != x
    ensures EmittedIds(HiddenCycle(a, x)) == [a, a, x]
  {
    InitialClosed(HiddenCycle(a, x));
    HiddenCycleNet(a, x);
    HiddenCycleStart(a, x);
    ThreeRounds(a, x);
  }

  lemma ThreeRounds(a: string, x: string)
    requires a != x
    ensures var g: Graph, f := map[a := [x], x := [x]], Frontier(map[a := 0, x := 2], [a, a], []);
      Closed(g, f) && Run(g, f).emitted == [a, a, x]
  {
    var g: Graph := map[a := [x], x := [x]];
    var f0 := Frontier(map[a := 0, x := 2], [a, a], []);
    var f1 := Frontier(map[a := 0, x := 1], [a], [a]);
    assert f1 == Touch(Frontier(f0.inDegree, [a], [a]), x) by {
      assert f1.inDegree == f0.inDegree[x := 1];
    }
    assert f0.queue[1..] == [a] && f0.emitted + [a] == [a];
    SingleVisit(g, f0, f1, a, x);
    LastTwoRounds(a, x);
  }

  lemma LastTwoRounds(a: string, x: string)
    requires a != x
    ensures var g: Graph, f := map[a := [x], x := [x]], Frontier(map[a := 0, x := 1], [a], [a]);
      Closed(g, f) && Run(g, f).emitted == [a, a, x]
  {
    var g: Graph := map[a := [x], x := [x]];
    var f1 := Frontier(map[a := 0, x := 1], [a], [a]);
    var f2 := Frontier(map[a := 0, x := 0], [x], [a, a]);
    assert f2 == Touch(Frontier(f1.inDegree, [], [a, a]), x) by {
      assert f2.inDegree == f1.inDegree[x := 0];
    }
    assert f1.queue[1..] == [] && f1.emitted + [a] == [a, a];
    SingleVisit(g, f1, f2, a, x);
    LastRound(a, x);
  }

  lemma LastRound(a: string, x: string)
    requires a != x
    ensures var g: Graph, f := map[a := [x], x := [x]], Frontier(map[a := 0, x := 0], [x], [a, a]);
      Closed(g, f) && Run(g, f).emitted == [a, a, x]
  {
    var g: Graph := map[a := [x], x := [x]];
    var f2 := Frontier(map[a := 0, x := 0], [x], [a, a]);
    var f3 := Frontier(map[a := 0, x := -1], [], [a, a, x]);
    assert f3 == Touch(Frontier(f2.inDegree, [], [a, a, x]), x) by {
      assert f3.inDegree == f2.inDegree[x := -1];
    }
    assert f2.queue[1..] == [] && f2.emitted + [x] == [a, a, x];
    SingleVisit(g, f2, f3, x, x);
  }

  /** A round whose head has a single dependant. */
  lemma SingleVisit(g: Graph, f: Frontier, r: Frontier, c: string, n: string)
    requires Closed(g, f) && f.queue != [] && f.queue[0] == c
    requires c in g && g[c] == [n] && n in f.inDegree
    requires r == Touch(Frontier(f.inDegree, f.queue[1..], f.emitted + [c]), n)
    ensures Closed(g, r) && Run(g, f) == Run(g, r)
  {
    var popped := Frontier(f.inDegree, f.queue[1..], f.emitted + [c]);
    assert Visit(popped, [n]) == Visit(r, []);
    StepStaysClosed(g, f);
  }

  // ---------- a cycle reported where there is none ----------

  /** `b` waits for `a`, and is listed twice. */
  function FalseAlarm(a: string, b: string): seq<Task> {
    [Named(a, []), Named(b, [a]), Named(b, [a])]
  }

  /** The opposite failure: an acyclic plan is taken for a cyclic one. */
  lemma DuplicateIdsFakeCycle(a: string, b: string)
    requires a != "" && b != "" && a != b
    ensures !UniqueKeys(FalseAlarm(a, b)) && Acyclic(FalseAlarm(a, b))
    ensures |EmittedIds(FalseAlarm(a, b))| != |FalseAlarm(a, b)|
    ensures Order(FalseAlarm(a, b)) == FalseAlarm(a, b)
  {
    var ts := FalseAlarm(a, b);
    assert ts[1].Key() == ts[2].Key();
    FalseAlarmAcyclic(a, b);
    FalseAlarmCounts(a, b);
    AcyclicPassesIff(ts);
  }

  lemma FalseAlarmAcyclic(a: string, b: string)
    requires a != "" && b != "" && a != b
    ensures Acyclic(FalseAlarm(a, b))
  {
    var ts := FalseAlarm(a, b);
    assert forall x, d :: DependsOn(ts, x, d) ==> x == b && d == a;
    forall p ensures !IsCycle(ts, p) {
      if IsWalk(ts, p) && |p| >= 2 {
        var n := |p| - 1;
        assert DependsOn(ts, p[0], p[1]);
        assert DependsOn(ts, p[n - 1], p[n]);
        assert p[0] == b && p[n] == a;
      }
    }
  }

  lemma FalseAlarmCounts(a: string, b: string)
    requires a != "" && b != "" && a != b
    ensures !WaitingListedOnce(FalseAlarm(a, b))
  {
    var ts := FalseAlarm(a, b);
    var known := Known(ts);
    assert a in known && b in known by {
      KeyKnown(ts, 0);
      KeyKnown(ts, 1);
    }
    assert Keys(ts) == [a, b, b];
    assert [a][1..] == [] && CountIn([a], known) == 1;
    assert ts[1..][0] == Named(b, [a]);
    assert ListingsIn(ts[1..], b, known) >= 1;
    assert ListingsIn(ts, b, known) >= 1;
  }
}
