/** Invariants of the queue loop, and what they give once the queue is empty. */
module SchedulerProofs {
  import opened Common
  import opened Plan
  import opened Scheduler

  // ---------- one visit of the dependants ----------

  lemma CountHead(s: seq<string>, x: string)
    requires s != []
    ensures multiset(s)[x] == (if s[0] == x then 1 else 0) + multiset(s[1..])[x]
  {
    assert s == [s[0]] + s[1..];
  }

  lemma {:induction false} VisitAt(f: Frontier, ns: seq<string>, x: string)
    requires forall n :: n in ns ==> n in f.inDegree
    requires x in f.inDegree
    ensures var r := Visit(f, ns);
      && r.inDegree[x] == f.inDegree[x] - multiset(ns)[x]
      && multiset(r.queue[|f.queue|..])[x] == if f.inDegree[x] > 0 >= r.inDegree[x] then 1 else 0
    decreases |ns|
  {
    var r := Visit(f, ns);
    if ns == [] {
      assert r.queue[|f.queue|..] == [];
    } else {
      var g := Touch(f, ns[0]);
      VisitAt(g, ns[1..], x);
      CountHead(ns, x);
      assert r == Visit(g, ns[1..]);
      var first, later := g.queue[|f.queue|..], r.queue[|g.queue|..];
      assert r.queue[|f.queue|..] == first + later;
      assert first == if g.inDegree[ns[0]] == 0 then [ns[0]] else [];
    }
  }

  lemma {:induction false} VisitPushesNeighbours(f: Frontier, ns: seq<string>)
    requires forall n :: n in ns ==> n in f.inDegree
    ensures forall x :: x in Visit(f, ns).queue[|f.queue|..] ==> x in ns
    decreases |ns|
  {
    if ns != [] {
      var g, r := Touch(f, ns[0]), Visit(f, ns);
      VisitPushesNeighbours(g, ns[1..]);
      assert r.queue[|f.queue|..] == g.queue[|f.queue|..] + r.queue[|g.queue|..];
    }
  }

  ghost function Pushed(g: Graph, f: Frontier): seq<string>
    requires Closed(g, f) && f.queue != []
  {
    Step(g, f).queue[|f.queue| - 1..]
  }

  /** One round: the head moves to the emitted ids and some of its dependants join the queue. */
  lemma StepShape(g: Graph, f: Frontier)
    requires Closed(g, f) && f.queue != []
    ensures var r, c := Step(g, f), f.queue[0];
      && c in g
      && r.emitted == f.emitted + [c]
      && r.emitted + r.queue == (f.emitted + f.queue) + Pushed(g, f)
      && r.inDegree.Keys == f.inDegree.Keys
      && (forall x :: x in Pushed(g, f) ==> x in g[c])
  {
    var c := f.queue[0];
    assert c in g;
    var popped := Frontier(f.inDegree, f.queue[1..], f.emitted + [c]);
    VisitPushesNeighbours(popped, g[c]);
    var r, before := Step(g, f), f.queue[1..];
    assert before <= r.queue && r.queue[|before|..] == Pushed(g, f);
    assert r.queue == before + Pushed(g, f);
    assert f.emitted + [c] + before == f.emitted + f.queue;
  }

  /** Each dependant of the head loses one in-degree per listing, and is queued exactly when
      its in-degree reaches 0. */
  lemma StepAt(g: Graph, f: Frontier, x: string)
    requires Closed(g, f) && f.queue != []
    requires x in f.inDegree
    ensures f.queue[0] in g
    ensures x in Step(g, f).inDegree
    ensures Step(g, f).inDegree[x] == f.inDegree[x] - multiset(g[f.queue[0]])[x]
    ensures multiset(Pushed(g, f))[x] == if f.inDegree[x] > 0 >= Step(g, f).inDegree[x] then 1 else 0
  {
    var c := f.queue[0];
    assert c in g;
    var popped := Frontier(f.inDegree, f.queue[1..], f.emitted + [c]);
    VisitAt(popped, g[c], x);
  }

  // ---------- every plan: how often each id is queued ----------

  /** A task that starts at in-degree 0 is queued once per listing of its key, any other
      task once, at the moment its in-degree reaches 0. */
  ghost predicate Counted(ts: seq<Task>, f: Frontier) {
    var start := NetOf(ts).inDegree;
    && f.inDegree.Keys == Known(ts)
    && (forall x :: x in f.emitted + f.queue ==> x in Known(ts))
    && (forall x :: x in Known(ts) ==> f.inDegree[x] <= start[x])
    && (forall x :: x in Known(ts) ==>
          multiset(f.emitted + f.queue)[x] ==
          if start[x] == 0 then multiset(Keys(ts))[x] else if f.inDegree[x] > 0 then 0 else 1)
  }

  lemma QueuedInitially(ts: seq<Task>, x: string)
    ensures x in Known(ts) ==>
      multiset(Initial(ts).queue)[x] == if NetOf(ts).inDegree[x] == 0 then multiset(Keys(ts))[x] else 0
    ensures x in Known(ts) ==> NetOf(ts).inDegree[x] >= 0
    ensures x in Initial(ts).queue ==> x in Known(ts)
  {
    KnownIsKeys(ts);
    SourcesEffect(NetOf(ts).inDegree, Keys(ts));
    NetEffect(ts);
  }

  lemma CountedInitially(ts: seq<Task>)
    ensures Counted(ts, Initial(ts))
  {
    var f := Initial(ts);
    assert f.emitted + f.queue == f.queue;
    forall x ensures x in f.queue ==> x in Known(ts) {
      QueuedInitially(ts, x);
    }
    forall x | x in Known(ts)
      ensures multiset(f.emitted + f.queue)[x] ==
              if NetOf(ts).inDegree[x] == 0 then multiset(Keys(ts))[x] else if f.inDegree[x] > 0 then 0 else 1
    {
      QueuedInitially(ts, x);
    }
  }

  lemma CountedStep(ts: seq<Task>, f: Frontier)
    requires Closed(NetOf(ts).graph, f) && f.queue != []
    requires Counted(ts, f)
    ensures Counted(ts, Step(NetOf(ts).graph, f))
  {
    var g := NetOf(ts).graph;
    StepShape(g, f);
    NetEffect(ts);
    var r := Step(g, f);
    forall x | x in Known(ts)
      ensures r.inDegree[x] <= NetOf(ts).inDegree[x]
      ensures multiset(r.emitted + r.queue)[x] ==
              if NetOf(ts).inDegree[x] == 0 then multiset(Keys(ts))[x] else if r.inDegree[x] > 0 then 0 else 1
    {
      StepAt(g, f, x);
      assert multiset(r.emitted + r.queue)[x] == multiset(f.emitted + f.queue)[x] + multiset(Pushed(g, f))[x];
    }
  }

  // ---------- unique keys: in-degrees track what is still missing ----------

  ghost function Missing(ts: seq<Task>, f: Frontier): set<string> {
    Known(ts) - Elements(f.emitted)
  }

  /** Every known dependency of an id appears before it. */
  ghost predicate DependenciesFirst(ts: seq<Task>, ids: seq<string>) {
    forall i, d :: 0 <= i < |ids| && DependsOn(ts, ids[i], d) ==> d in ids[..i]
  }

  ghost predicate Tracked(ts: seq<Task>, f: Frontier) {
    && f.inDegree.Keys == Known(ts)
    && (forall i :: 0 <= i < |ts| ==>
          ts[i].Key() in Known(ts) && f.inDegree[ts[i].Key()] == CountIn(ts[i].dependsOn, Missing(ts, f)))
    && DependenciesFirst(ts, f.emitted)
  }

  lemma {:induction false} CountInDrops(deps: seq<string>, s: set<string>, c: string)
    requires c in s
    ensures CountIn(deps, s - {c}) == CountIn(deps, s) - multiset(deps)[c]
  {
    if deps != [] {
      assert deps == [deps[0]] + deps[1..];
      CountInDrops(deps[1..], s, c);
    }
  }

  lemma {:induction false} CountInZero(deps: seq<string>, s: set<string>)
    ensures CountIn(deps, s) == 0 <==> forall d :: d in deps ==> d !in s
  {
    if deps != [] {
      assert deps == [deps[0]] + deps[1..];
      CountInZero(deps[1..], s);
    }
  }

  lemma KeyKnown(ts: seq<Task>, i: nat)
    requires i < |ts|
    ensures ts[i].Key() in Known(ts)
  {
    assert ts[i] in ts;
  }

  lemma IndexOfKey(ts: seq<Task>, x: string) returns (i: nat)
    requires x in Known(ts)
    ensures i < |ts| && ts[i].Key() == x
  {
    var t :| t in ts && t.Key() == x;
    i :| 0 <= i < |ts| && ts[i] == t;
  }

  lemma DependsOnIsListed(ts: seq<Task>, i: nat, d: string)
    requires UniqueKeys(ts) && i < |ts|
    ensures DependsOn(ts, ts[i].Key(), d) <==> d in Known(ts) && d in ts[i].dependsOn
  {
    if DependsOn(ts, ts[i].Key(), d) {
      var t :| t in ts && t.Key() == ts[i].Key() && d in t.dependsOn;
      var j :| 0 <= j < |ts| && ts[j] == t;
    }
  }

  lemma TrackedInitially(ts: seq<Task>)
    requires UniqueKeys(ts)
    ensures Tracked(ts, Initial(ts))
  {
    NetEffect(ts);
    var f := Initial(ts);
    assert Missing(ts, f) == Known(ts);
    forall i | 0 <= i < |ts|
      ensures ts[i].Key() in Known(ts) && f.inDegree[ts[i].Key()] == CountIn(ts[i].dependsOn, Missing(ts, f))
    {
      KeyKnown(ts, i);
      UniqueListings(ts, i, "", Known(ts));
    }
  }

  lemma QueuedAtMostOnce(ts: seq<Task>, f: Frontier, x: string)
    requires UniqueKeys(ts) && Counted(ts, f) && x in Known(ts)
    ensures multiset(f.emitted + f.queue)[x] == if f.inDegree[x] <= 0 then 1 else 0
  {
    NetEffect(ts);
    KnownIsKeys(ts);
    OccursOnce(Keys(ts), x);
  }

  /** With unique keys nothing is queued twice. */
  lemma QueuedOnce(ts: seq<Task>, f: Frontier)
    requires UniqueKeys(ts) && Counted(ts, f)
    ensures NoDuplicates(f.emitted + f.queue)
    ensures forall x :: x in Known(ts) ==> (x in f.emitted + f.queue <==> f.inDegree[x] <= 0)
  {
    var s := f.emitted + f.queue;
    forall x | x in Known(ts)
      ensures multiset(s)[x] <= 1 && (x in s <==> f.inDegree[x] <= 0)
    {
      QueuedAtMostOnce(ts, f, x);
      assert x in s <==> multiset(s)[x] > 0;
    }
    AtMostOnce(s);
  }

  lemma {:induction false} OccursOnce(s: seq<string>, x: string)
    requires NoDuplicates(s) && x in s
    ensures multiset(s)[x] == 1
  {
    assert s == [s[0]] + s[1..];
    if s[0] != x {
      OccursOnce(s[1..], x);
    } else {
      assert x !in s[1..];
    }
  }

  lemma {:induction false} AtMostOnce(s: seq<string>)
    requires forall x :: x in s ==> multiset(s)[x] <= 1
    ensures NoDuplicates(s)
  {
    if s != [] {
      assert s == [s[0]] + s[1..];
      assert multiset(s)[s[0]] == 1 + multiset(s[1..])[s[0]];
      assert s[0] !in s[1..];
      forall x | x in s[1..] ensures multiset(s[1..])[x] <= 1 {
        assert x in s;
      }
      AtMostOnce(s[1..]);
    }
  }

  /** The dependencies of a queued task have all been emitted. */
  lemma QueuedIsReady(ts: seq<Task>, f: Frontier, x: string, d: string)
    requires UniqueKeys(ts) && Counted(ts, f) && Tracked(ts, f)
    requires x in f.queue && DependsOn(ts, x, d)
    ensures d in f.emitted
  {
    QueuedOnce(ts, f);
    assert x in f.emitted + f.queue;
    var i := IndexOfKey(ts, x);
    DependsOnIsListed(ts, i, d);
    CountInZero(ts[i].dependsOn, Missing(ts, f));
  }

  lemma TrackedDegree(ts: seq<Task>, f: Frontier, i: nat)
    requires UniqueKeys(ts)
    requires Closed(NetOf(ts).graph, f) && f.queue != []
    requires Counted(ts, f) && Tracked(ts, f)
    requires i < |ts|
    ensures var r := Step(NetOf(ts).graph, f);
      && ts[i].Key() in r.inDegree
      && r.inDegree[ts[i].Key()] == CountIn(ts[i].dependsOn, Missing(ts, f) - {f.queue[0]})
  {
    var g := NetOf(ts).graph;
    var c := f.queue[0];
    HeadIsMissing(ts, f);
    StepAt(g, f, ts[i].Key());
    NetEffect(ts);
    UniqueListings(ts, i, c, {});
    CountInDrops(ts[i].dependsOn, Missing(ts, f), c);
  }

  lemma EmitsInOrder(ts: seq<Task>, f: Frontier)
    requires UniqueKeys(ts)
    requires f.queue != [] && Counted(ts, f) && Tracked(ts, f)
    ensures DependenciesFirst(ts, f.emitted + [f.queue[0]])
  {
    var c := f.queue[0];
    var e := f.emitted + [c];
    forall i, d | 0 <= i < |e| && DependsOn(ts, e[i], d) ensures d in e[..i] {
      if i == |f.emitted| {
        QueuedIsReady(ts, f, c, d);
        assert e[..i] == f.emitted;
      } else {
        assert e[..i] == f.emitted[..i];
      }
    }
  }

  lemma MissingShrinks(ts: seq<Task>, f: Frontier)
    requires Closed(NetOf(ts).graph, f) && f.queue != []
    ensures Missing(ts, Step(NetOf(ts).graph, f)) == Missing(ts, f) - {f.queue[0]}
  {
    StepShape(NetOf(ts).graph, f);
  }

  lemma TrackedStep(ts: seq<Task>, f: Frontier)
    requires UniqueKeys(ts)
    requires Closed(NetOf(ts).graph, f) && f.queue != []
    requires Counted(ts, f) && Tracked(ts, f)
    ensures Tracked(ts, Step(NetOf(ts).graph, f))
  {
    var r := Step(NetOf(ts).graph, f);
    assert r.emitted == f.emitted + [f.queue[0]] && r.inDegree.Keys == f.inDegree.Keys by {
      StepShape(NetOf(ts).graph, f);
    }
    assert DependenciesFirst(ts, r.emitted) by { EmitsInOrder(ts, f); }
    forall i | 0 <= i < |ts|
      ensures ts[i].Key() in Known(ts) && r.inDegree[ts[i].Key()] == CountIn(ts[i].dependsOn, Missing(ts, r))
    {
      MissingShrinks(ts, f);
      TrackedDegree(ts, f, i);
    }
  }

  lemma NotBefore(a: seq<string>, b: seq<string>)
    requires NoDuplicates(a + b) && b != []
    ensures b[0] !in a
  {
    var s := a + b;
    assert s[|a|] == b[0];
    assert forall i :: 0 <= i < |a| ==> a[i] == s[i];
  }

  lemma HeadIsMissing(ts: seq<Task>, f: Frontier)
    requires UniqueKeys(ts) && Counted(ts, f) && f.queue != []
    ensures f.queue[0] in Missing(ts, f)
  {
    QueuedOnce(ts, f);
    NotBefore(f.emitted, f.queue);
    assert f.queue[0] in f.emitted + f.queue;
  }

  // ---------- acyclic plans: the FIFO queue works through the depths ----------

  ghost predicate DepthSorted(ts: seq<Task>, ids: seq<string>) {
    forall i, j :: 0 <= i < j < |ids| ==> Depth(ts, ids[i]) <= Depth(ts, ids[j])
  }

  /** The depth that queued tasks cannot exceed: one more than that of the last task emitted. */
  ghost function Ceiling(ts: seq<Task>, f: Frontier): nat {
    if f.emitted == [] then 0 else Depth(ts, f.emitted[|f.emitted| - 1]) + 1
  }

  ghost predicate Layered(ts: seq<Task>, f: Frontier) {
    && DepthSorted(ts, f.emitted + f.queue)
    && forall x :: x in f.emitted + f.queue ==> Depth(ts, x) <= Ceiling(ts, f)
  }

  lemma DepthFromDependencies(ts: seq<Task>, x: string, c: string)
    requires Acyclic(ts)
    requires DependsOn(ts, x, c) && x in Known(ts)
    requires forall d :: DependsOn(ts, x, d) ==> Depth(ts, d) <= Depth(ts, c)
    ensures Depth(ts, x) == Depth(ts, c) + 1
  {
    var k := Depth(ts, c);
    DepthExact(ts, c, k);
    assert HasChain(ts, x, k + 1);
    DepthExact(ts, x, k + 1);
    forall d | DependsOn(ts, x, d) ensures !HasChain(ts, d, k + 1) {
      DepthExact(ts, d, k + 1);
    }
    DepthExact(ts, x, k + 2);
  }

  lemma NoDependenciesNoDepth(ts: seq<Task>, x: string)
    requires Acyclic(ts) && x in Known(ts)
    requires forall d :: !DependsOn(ts, x, d)
    ensures Depth(ts, x) == 0
  {
    DepthExact(ts, x, 1);
  }

  lemma LayeredInitially(ts: seq<Task>)
    requires UniqueKeys(ts) && Acyclic(ts)
    ensures Layered(ts, Initial(ts))
  {
    var f := Initial(ts);
    CountedInitially(ts);
    TrackedInitially(ts);
    assert f.emitted + f.queue == f.queue;
    forall x | x in f.queue ensures Depth(ts, x) == 0 {
      assert x in f.emitted + f.queue;
      forall d ensures !DependsOn(ts, x, d) {
        if DependsOn(ts, x, d) {
          QueuedIsReady(ts, f, x, d);
          assert false;
        }
      }
      NoDependenciesNoDepth(ts, x);
    }
  }

  lemma PushedDependsOnHead(ts: seq<Task>, f: Frontier, u: string)
    requires UniqueKeys(ts)
    requires Closed(NetOf(ts).graph, f) && f.queue != []
    requires u in Pushed(NetOf(ts).graph, f) && f.inDegree.Keys == Known(ts)
    ensures u in Known(ts) && DependsOn(ts, u, f.queue[0])
  {
    var g := NetOf(ts).graph;
    var c := f.queue[0];
    StepShape(g, f);
    assert u in g[c] && u in g;
    NetEffect(ts);
    var i := IndexOfKey(ts, u);
    UniqueListings(ts, i, c, {});
    assert multiset(g[c])[u] > 0;
    DependsOnIsListed(ts, i, c);
  }

  lemma EmittedNoDeeper(ts: seq<Task>, f: Frontier, d: string)
    requires DepthSorted(ts, f.emitted + f.queue) && f.queue != [] && d in f.emitted
    ensures Depth(ts, d) <= Depth(ts, f.queue[0])
  {
    var s := f.emitted + f.queue;
    var i :| 0 <= i < |f.emitted| && f.emitted[i] == d;
    assert s[i] == d && s[|f.emitted|] == f.queue[0];
  }

  /** The dependencies of a task queued in this round were emitted before or are the head. */
  lemma PushedIsReady(ts: seq<Task>, f: Frontier, u: string, d: string)
    requires UniqueKeys(ts)
    requires Closed(NetOf(ts).graph, f) && f.queue != []
    requires Counted(ts, f) && Tracked(ts, f)
    requires u in Pushed(NetOf(ts).graph, f) && DependsOn(ts, u, d)
    ensures d in f.emitted || d == f.queue[0]
  {
    var g := NetOf(ts).graph;
    var r := Step(g, f);
    StepShape(g, f);
    CountedStep(ts, f);
    TrackedStep(ts, f);
    assert u in r.queue by {
      assert u in r.queue[|f.queue| - 1..];
    }
    QueuedIsReady(ts, r, u, d);
  }

  /** A task queued in this round lies exactly one layer below the task just emitted. */
  lemma PushedDepth(ts: seq<Task>, f: Frontier, u: string)
    requires UniqueKeys(ts) && Acyclic(ts)
    requires Closed(NetOf(ts).graph, f) && f.queue != []
    requires Counted(ts, f) && Tracked(ts, f) && Layered(ts, f)
    requires u in Pushed(NetOf(ts).graph, f)
    ensures Depth(ts, u) == Depth(ts, f.queue[0]) + 1
  {
    var c := f.queue[0];
    PushedDependsOnHead(ts, f, u);
    forall d | DependsOn(ts, u, d) ensures Depth(ts, d) <= Depth(ts, c) {
      PushedIsReady(ts, f, u, d);
      if d != c {
        EmittedNoDeeper(ts, f, d);
      }
    }
    DepthFromDependencies(ts, u, c);
  }

  lemma DepthSortedExtends(ts: seq<Task>, s: seq<string>, p: seq<string>, bound: nat)
    requires DepthSorted(ts, s)
    requires forall x :: x in s ==> Depth(ts, x) <= bound
    requires forall x :: x in p ==> Depth(ts, x) == bound
    ensures DepthSorted(ts, s + p)
  {
    var q := s + p;
    forall i, j | 0 <= i < j < |q| ensures Depth(ts, q[i]) <= Depth(ts, q[j]) {
      if j >= |s| {
        assert q[j] in p;
        assert q[i] in s || q[i] in p;
      }
    }
  }

  lemma CeilingIsClose(ts: seq<Task>, f: Frontier)
    requires DepthSorted(ts, f.emitted + f.queue) && f.queue != []
    ensures Ceiling(ts, f) <= Depth(ts, f.queue[0]) + 1
  {
    if f.emitted != [] {
      EmittedNoDeeper(ts, f, f.emitted[|f.emitted| - 1]);
    }
  }

  lemma LayeredExtends(ts: seq<Task>, f: Frontier, r: Frontier, p: seq<string>)
    requires Layered(ts, f) && f.queue != []
    requires r.emitted == f.emitted + [f.queue[0]]
    requires r.emitted + r.queue == (f.emitted + f.queue) + p
    requires forall u :: u in p ==> Depth(ts, u) == Depth(ts, f.queue[0]) + 1
    ensures Layered(ts, r)
  {
    CeilingIsClose(ts, f);
    DepthSortedExtends(ts, f.emitted + f.queue, p, Depth(ts, f.queue[0]) + 1);
  }

  lemma LayeredStep(ts: seq<Task>, f: Frontier)
    requires UniqueKeys(ts) && Acyclic(ts)
    requires Closed(NetOf(ts).graph, f) && f.queue != []
    requires Counted(ts, f) && Tracked(ts, f) && Layered(ts, f)
    ensures Layered(ts, Step(NetOf(ts).graph, f))
  {
    var g := NetOf(ts).graph;
    var p := Pushed(g, f);
    StepShape(g, f);
    forall u | u in p ensures Depth(ts, u) == Depth(ts, f.queue[0]) + 1 {
      PushedDepth(ts, f, u);
    }
    LayeredExtends(ts, f, Step(g, f), p);
  }

  // ---------- the whole run ----------

  lemma {:induction false} RunKeeps(ts: seq<Task>, f: Frontier)
    requires Closed(NetOf(ts).graph, f) && Counted(ts, f)
    requires UniqueKeys(ts) ==> Tracked(ts, f)
    requires UniqueKeys(ts) && Acyclic(ts) ==> Layered(ts, f)
    ensures var r := Run(NetOf(ts).graph, f);
      && r.queue == []
      && Counted(ts, r)
      && (UniqueKeys(ts) ==> Tracked(ts, r))
      && (UniqueKeys(ts) && Acyclic(ts) ==> Layered(ts, r))
    decreases Measure(f)
  {
    if f.queue != [] {
      var g := NetOf(ts).graph;
      StepStaysClosed(g, f);
      CountedStep(ts, f);
      if UniqueKeys(ts) {
        TrackedStep(ts, f);
        if Acyclic(ts) {
          LayeredStep(ts, f);
        }
      }
      RunKeeps(ts, Step(g, f));
    }
  }

  lemma FinalState(ts: seq<Task>) returns (f: Frontier)
    ensures f.emitted == EmittedIds(ts) && f.queue == []
    ensures f.emitted + f.queue == f.emitted
    ensures Counted(ts, f)
    ensures UniqueKeys(ts) ==> Tracked(ts, f)
    ensures UniqueKeys(ts) && Acyclic(ts) ==> Layered(ts, f)
  {
    InitialClosed(ts);
    CountedInitially(ts);
    if UniqueKeys(ts) {
      TrackedInitially(ts);
      if Acyclic(ts) {
        LayeredInitially(ts);
      }
    }
    RunKeeps(ts, Initial(ts));
    f := Run(NetOf(ts).graph, Initial(ts));
  }
}
