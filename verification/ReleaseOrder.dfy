/**
 In which order the tasks of a plan with unique ids come out, to the last detail: by the position
 of the last dependency they waited for, and among tasks released together by their place in the
 plan. This leaves exactly one list.
 */
module ReleaseOrder {
  import opened Common
  import opened Plan
  import opened Scheduler
  import opened SchedulerProofs
  import opened Ordering

  // ---------- the order, as a property of a list ----------

  /** The place of a known id in the plan. */
  function Place(ts: seq<Task>, x: string): (i: nat)
    requires x in Known(ts)
    ensures i < |ts| && ts[i].Key() == x
  {
    KeyIffKnown(ts, x);
    FirstIndex(Keys(ts), x)
  }

  /** The position in the list of the last known dependency of `x`, or -1 if there is none. */
  ghost function Last(ts: seq<Task>, ids: seq<string>, x: string): (k: int)
    ensures -1 <= k < |ids|
    ensures k >= 0 ==> DependsOn(ts, x, ids[k])
    ensures forall m :: k < m < |ids| ==> !DependsOn(ts, x, ids[m])
  {
    if ids == [] then -1
    else if DependsOn(ts, x, ids[|ids| - 1]) then |ids| - 1
    else Last(ts, ids[..|ids| - 1], x)
  }

  /** `x` is released before `y`: its last dependency comes earlier, or it is the same one (or
      neither has any) and `x` stands first in the plan. */
  ghost predicate ReleasedBefore(ts: seq<Task>, ids: seq<string>, x: string, y: string)
    requires x in Known(ts) && y in Known(ts)
  {
    || Last(ts, ids, x) < Last(ts, ids, y)
    || (Last(ts, ids, x) == Last(ts, ids, y) && Place(ts, x) < Place(ts, y))
  }

  /** `ids` in the order in which the dependencies listed in `done` release them. */
  ghost predicate InReleaseOrder(ts: seq<Task>, done: seq<string>, ids: seq<string>) {
    && (forall x :: x in ids ==> x in Known(ts))
    && forall i, j :: 0 <= i < j < |ids| ==> ReleasedBefore(ts, done, ids[i], ids[j])
  }

  // ---------- the tables list dependants in plan order ----------

  /** The ids stand in plan order, repetitions allowed, at places up to `bound`. */
  ghost predicate InPlanOrder(ts: seq<Task>, ids: seq<string>, bound: int) {
    && (forall x :: x in ids ==> x in Known(ts) && Place(ts, x) <= bound)
    && forall i, j :: 0 <= i < j < |ids| ==> Place(ts, ids[i]) <= Place(ts, ids[j])
  }

  lemma OwnPlace(ts: seq<Task>, i: nat)
    requires UniqueKeys(ts) && i < |ts|
    ensures ts[i].Key() in Known(ts) && Place(ts, ts[i].Key()) == i
  {
    KeyKnown(ts, i);
  }

  ghost predicate GraphInOrder(ts: seq<Task>, graph: Graph, bound: int) {
    forall d :: d in graph ==> InPlanOrder(ts, graph[d], bound)
  }

  lemma GraphStaysInOrder(ts: seq<Task>, graph: Graph, i: nat, e: string)
    requires UniqueKeys(ts) && i < |ts| && GraphInOrder(ts, graph, i) && e in graph
    ensures GraphInOrder(ts, graph[e := graph[e] + [ts[i].Key()]], i)
  {
    OwnPlace(ts, i);
    assert InPlanOrder(ts, graph[e] + [ts[i].Key()], i);
  }

  /** The tables once `id` is linked to one known dependency. */
  function Linked(net: Net, id: string, d: string): Net
    requires id in net.inDegree && d in net.graph
  {
    Net(net.graph[d := net.graph[d] + [id]], net.inDegree[id := net.inDegree[id] + 1])
  }

  lemma LinkFirst(net: Net, id: string, deps: seq<string>)
    requires id in net.inDegree && deps != []
    ensures AddDependencies(net, id, deps)
         == AddDependencies(if deps[0] in net.graph then Linked(net, id, deps[0]) else net, id, deps[1..])
  {}

  lemma {:induction false} AddDependenciesInOrder(ts: seq<Task>, i: nat, net: Net, id: string, deps: seq<string>)
    requires UniqueKeys(ts) && i < |ts| && id == ts[i].Key() && id in net.inDegree
    requires GraphInOrder(ts, net.graph, i)
    ensures GraphInOrder(ts, AddDependencies(net, id, deps).graph, i)
    decreases |deps|
  {
    if deps != [] {
      LinkFirst(net, id, deps);
      if deps[0] in net.graph {
        GraphStaysInOrder(ts, net.graph, i, deps[0]);
        AddDependenciesInOrder(ts, i, Linked(net, id, deps[0]), id, deps[1..]);
      } else {
        AddDependenciesInOrder(ts, i, net, id, deps[1..]);
      }
    }
  }

  lemma WiderBound(ts: seq<Task>, graph: Graph, bound: int, wider: int)
    requires GraphInOrder(ts, graph, bound) && bound <= wider
    ensures GraphInOrder(ts, graph, wider)
  {
    forall d | d in graph ensures InPlanOrder(ts, graph[d], wider) {
      assert InPlanOrder(ts, graph[d], bound);
    }
  }

  lemma {:induction false} AddTasksInOrder(ts: seq<Task>, i: nat, us: seq<Task>, net: Net)
    requires UniqueKeys(ts) && i <= |ts| && us == ts[i..] && Known(us) <= net.inDegree.Keys
    requires GraphInOrder(ts, net.graph, i)
    ensures GraphInOrder(ts, AddTasks(net, us).graph, |ts|)
    decreases |us|
  {
    if us == [] {
      WiderBound(ts, net.graph, i, |ts|);
    } else {
      assert us[0].Key() in Known(us);
      assert Known(us[1..]) <= Known(us);
      var linked := AddDependencies(net, us[0].Key(), us[0].dependsOn);
      AddDependenciesInOrder(ts, i, net, us[0].Key(), us[0].dependsOn);
      WiderBound(ts, linked.graph, i, i + 1);
      AddTasksInOrder(ts, i + 1, us[1..], linked);
    }
  }

  /** Each task's dependants stand in plan order. */
  lemma DependantsInPlanOrder(ts: seq<Task>)
    requires UniqueKeys(ts)
    ensures GraphInOrder(ts, NetOf(ts).graph, |ts|)
  {
    EmptyInOrder(ts, EmptyNet(ts));
    AddTasksInOrder(ts, 0, ts, EmptyNet(ts));
  }

  lemma EmptyInOrder(ts: seq<Task>, net: Net)
    requires net == EmptyNet(ts)
    ensures GraphInOrder(ts, net.graph, 0)
  {
    assert forall d :: d in net.graph ==> net.graph[d] == [];
  }

  lemma HeadBeforeTail(ts: seq<Task>, ns: seq<string>, first: seq<string>, later: seq<string>)
    requires ns != [] && InPlanOrder(ts, ns, |ts|) && InPlanOrder(ts, later, |ts|)
    requires first == [] || first == [ns[0]]
    requires forall x :: x in later ==> x in ns[1..]
    ensures InPlanOrder(ts, first + later, |ts|)
  {
    var s := first + later;
    forall i, j | 0 <= i < j < |s| ensures Place(ts, s[i]) <= Place(ts, s[j]) {
      if first != [] && i == 0 {
        assert s[j] in later;
        var k :| 0 <= k < |ns[1..]| && ns[1..][k] == s[j];
        assert ns[k + 1] == s[j];
      }
    }
  }

  lemma {:induction false} SourcesInOrder(ts: seq<Task>, deg: Degrees, ks: seq<string>)
    requires InPlanOrder(ts, ks, |ts|) && forall k :: k in ks ==> k in deg
    ensures InPlanOrder(ts, Sources(deg, ks), |ts|)
  {
    if ks != [] {
      var first, later := if deg[ks[0]] == 0 then [ks[0]] else [], Sources(deg, ks[1..]);
      SourcesInOrder(ts, deg, ks[1..]);
      SourcesEffect(deg, ks[1..]);
      HeadBeforeTail(ts, ks, first, later);
    }
  }

  lemma KeysInPlanOrder(ts: seq<Task>)
    requires UniqueKeys(ts)
    ensures InPlanOrder(ts, Keys(ts), |ts|)
  {
    forall i | 0 <= i < |ts| ensures Keys(ts)[i] in Known(ts) && Place(ts, Keys(ts)[i]) == i {
      OwnPlace(ts, i);
    }
  }

  lemma TailInPlanOrder(ts: seq<Task>, ns: seq<string>)
    requires ns != [] && InPlanOrder(ts, ns, |ts|)
    ensures InPlanOrder(ts, ns[1..], |ts|)
  {}

  lemma VisitTail(f: Frontier, ns: seq<string>)
    requires (forall n :: n in ns ==> n in f.inDegree) && ns != []
    ensures var g := Touch(f, ns[0]);
      && (g.queue[|f.queue|..] == [] || g.queue[|f.queue|..] == [ns[0]])
      && Visit(f, ns).queue[|f.queue|..] == g.queue[|f.queue|..] + Visit(g, ns[1..]).queue[|g.queue|..]
  {
    var g, r := Touch(f, ns[0]), Visit(f, ns);
    assert r.queue[|f.queue|..] == g.queue[|f.queue|..] + r.queue[|g.queue|..];
  }

  /** Visiting dependants in plan order queues them in plan order. */
  lemma {:induction false} VisitInOrder(ts: seq<Task>, f: Frontier, ns: seq<string>)
    requires forall n :: n in ns ==> n in f.inDegree
    requires InPlanOrder(ts, ns, |ts|)
    ensures InPlanOrder(ts, Visit(f, ns).queue[|f.queue|..], |ts|)
    decreases |ns|
  {
    if ns != [] {
      var g := Touch(f, ns[0]);
      TailInPlanOrder(ts, ns);
      VisitInOrder(ts, g, ns[1..]);
      VisitPushesNeighbours(g, ns[1..]);
      VisitTail(f, ns);
      HeadBeforeTail(ts, ns, g.queue[|f.queue|..], Visit(g, ns[1..]).queue[|g.queue|..]);
    } else {
      assert Visit(f, ns).queue[|f.queue|..] == [];
    }
  }

  lemma PushedInPlanOrder(ts: seq<Task>, f: Frontier)
    requires UniqueKeys(ts) && Closed(NetOf(ts).graph, f) && f.queue != []
    ensures InPlanOrder(ts, Pushed(NetOf(ts).graph, f), |ts|)
  {
    var g, c := NetOf(ts).graph, f.queue[0];
    DependantsInPlanOrder(ts);
    assert c in g;
    var popped := Frontier(f.inDegree, f.queue[1..], f.emitted + [c]);
    VisitInOrder(ts, popped, g[c]);
  }

  // ---------- the queue loop ----------

  ghost predicate Released(ts: seq<Task>, f: Frontier) {
    InReleaseOrder(ts, f.emitted, f.emitted + f.queue)
  }

  /** An id that does not depend on the one emitted keeps its last dependency. */
  lemma LastStays(ts: seq<Task>, ids: seq<string>, c: string, x: string)
    ensures !DependsOn(ts, x, c) ==> Last(ts, ids + [c], x) == Last(ts, ids, x)
    ensures DependsOn(ts, x, c) ==> Last(ts, ids + [c], x) == |ids|
  {
    var s := ids + [c];
    assert s[..|s| - 1] == ids;
  }

  lemma ReleasedInitially(ts: seq<Task>)
    requires UniqueKeys(ts)
    ensures Released(ts, Initial(ts))
  {
    CountedInitially(ts);
    QueuedOnce(ts, Initial(ts));
    InitialInOrder(ts);
    NothingReleased(ts, Initial(ts));
  }

  lemma NothingReleased(ts: seq<Task>, f: Frontier)
    requires f.emitted == [] && NoDuplicates(f.emitted + f.queue) && InPlanOrder(ts, f.queue, |ts|)
    ensures Released(ts, f)
  {
    assert f.emitted + f.queue == f.queue;
    NothingReleasedYet(ts, f.queue);
  }

  lemma NothingReleasedYet(ts: seq<Task>, q: seq<string>)
    requires NoDuplicates(q) && InPlanOrder(ts, q, |ts|)
    ensures InReleaseOrder(ts, [], q)
  {
    StrictlyInPlanOrder(ts, q);
    forall i, j | 0 <= i < j < |q| ensures ReleasedBefore(ts, [], q[i], q[j]) {
      assert Last(ts, [], q[i]) == -1 == Last(ts, [], q[j]);
      assert Place(ts, q[i]) < Place(ts, q[j]);
    }
  }

  lemma InitialInOrder(ts: seq<Task>)
    requires UniqueKeys(ts)
    ensures InPlanOrder(ts, Initial(ts).queue, |ts|)
  {
    KnownIsKeys(ts);
    KeysInPlanOrder(ts);
    SourcesInOrder(ts, NetOf(ts).inDegree, Keys(ts));
  }

  /** Without repetition, plan order is strict. */
  lemma StrictlyInPlanOrder(ts: seq<Task>, ids: seq<string>)
    requires InPlanOrder(ts, ids, |ts|) && NoDuplicates(ids)
    ensures forall i, j :: 0 <= i < j < |ids| ==> Place(ts, ids[i]) < Place(ts, ids[j])
  {
    forall i, j | 0 <= i < j < |ids| ensures Place(ts, ids[i]) < Place(ts, ids[j]) {
      assert ts[Place(ts, ids[i])].Key() == ids[i] && ts[Place(ts, ids[j])].Key() == ids[j];
    }
  }

  /** Everything emitted or queued has its dependencies among the emitted ids. */
  lemma NotOnHead(ts: seq<Task>, f: Frontier, x: string)
    requires UniqueKeys(ts) && Counted(ts, f) && Tracked(ts, f) && f.queue != []
    requires x in f.emitted + f.queue
    ensures !DependsOn(ts, x, f.queue[0])
  {
    HeadIsMissing(ts, f);
    if DependsOn(ts, x, f.queue[0]) {
      if x in f.queue {
        QueuedIsReady(ts, f, x, f.queue[0]);
      }
    }
  }

  lemma ReleasedExtends(ts: seq<Task>, done: seq<string>, c: string, old_: seq<string>, pushed: seq<string>)
    requires InReleaseOrder(ts, done, old_)
    requires forall x :: x in old_ ==> !DependsOn(ts, x, c)
    requires forall x :: x in pushed ==> x in Known(ts) && DependsOn(ts, x, c)
    requires forall i, j :: 0 <= i < j < |pushed| ==> Place(ts, pushed[i]) < Place(ts, pushed[j])
    ensures InReleaseOrder(ts, done + [c], old_ + pushed)
  {
    var s := old_ + pushed;
    forall x | x in s
      ensures x in old_ ==> Last(ts, done + [c], x) == Last(ts, done, x)
      ensures x in pushed ==> Last(ts, done + [c], x) == |done|
    {
      LastStays(ts, done, c, x);
    }
    forall i, j | 0 <= i < j < |s| ensures ReleasedBefore(ts, done + [c], s[i], s[j]) {
      if j < |old_| {
        assert s[i] == old_[i] && s[j] == old_[j];
      } else {
        assert s[j] == pushed[j - |old_|] && s[j] in pushed;
        if i < |old_| {
          assert s[i] == old_[i] && s[i] in old_;
        } else {
          assert s[i] == pushed[i - |old_|] && s[i] in pushed;
        }
      }
    }
  }

  lemma PushedStrictly(ts: seq<Task>, f: Frontier)
    requires UniqueKeys(ts) && Closed(NetOf(ts).graph, f) && f.queue != []
    requires Counted(ts, f)
    ensures var p := Pushed(NetOf(ts).graph, f);
      (forall x :: x in p ==> x in Known(ts)) &&
      forall i, j :: 0 <= i < j < |p| ==> Place(ts, p[i]) < Place(ts, p[j])
  {
    var g := NetOf(ts).graph;
    var r, p := Step(g, f), Pushed(g, f);
    CountedStep(ts, f);
    QueuedOnce(ts, r);
    StepShape(g, f);
    PushedInPlanOrder(ts, f);
    NoDuplicatesTail(f.emitted + f.queue, p);
    StrictlyInPlanOrder(ts, p);
  }

  lemma NoDuplicatesTail(a: seq<string>, b: seq<string>)
    requires NoDuplicates(a + b)
    ensures NoDuplicates(b)
  {
    forall i, j | 0 <= i < j < |b| ensures b[i] != b[j] {
      assert (a + b)[|a| + i] == b[i] && (a + b)[|a| + j] == b[j];
    }
  }

  lemma ReleasedStep(ts: seq<Task>, f: Frontier)
    requires UniqueKeys(ts) && Closed(NetOf(ts).graph, f) && f.queue != []
    requires Counted(ts, f) && Tracked(ts, f) && Released(ts, f)
    ensures Released(ts, Step(NetOf(ts).graph, f))
  {
    var g, c, s := NetOf(ts).graph, f.queue[0], f.emitted + f.queue;
    var p := Pushed(g, f);
    StepShape(g, f);
    forall x | x in s ensures !DependsOn(ts, x, c) {
      NotOnHead(ts, f, x);
    }
    forall x | x in p ensures x in Known(ts) && DependsOn(ts, x, c) {
      PushedDependsOnHead(ts, f, x);
    }
    PushedStrictly(ts, f);
    ReleasedExtends(ts, f.emitted, c, s, p);
  }

  lemma {:induction false} RunReleased(ts: seq<Task>, f: Frontier)
    requires UniqueKeys(ts) && Closed(NetOf(ts).graph, f)
    requires Counted(ts, f) && Tracked(ts, f) && Released(ts, f)
    ensures var r := Run(NetOf(ts).graph, f); InReleaseOrder(ts, r.emitted, r.emitted)
    decreases Measure(f)
  {
    if f.queue == [] {
      assert f.emitted + f.queue == f.emitted;
    } else {
      var g := NetOf(ts).graph;
      StepStaysClosed(g, f);
      CountedStep(ts, f);
      TrackedStep(ts, f);
      ReleasedStep(ts, f);
      RunReleased(ts, Step(g, f));
    }
  }

  lemma EmittedInReleaseOrder(ts: seq<Task>)
    requires UniqueKeys(ts)
    ensures InReleaseOrder(ts, EmittedIds(ts), EmittedIds(ts))
  {
    InitialClosed(ts);
    CountedInitially(ts);
    TrackedInitially(ts);
    ReleasedInitially(ts);
    RunReleased(ts, Initial(ts));
  }

  // ---------- the returned list ----------

  /** A list of the plan's tasks, dependencies first, in release order. */
  ghost predicate IsReleaseOrder(ts: seq<Task>, order: seq<Task>) {
    && multiset(order) == multiset(ts)
    && DependenciesFirst(ts, Keys(order))
    && InReleaseOrder(ts, Keys(order), Keys(order))
  }

  lemma OrderIsReleaseOrder(ts: seq<Task>)
    requires UniqueKeys(ts) && Acyclic(ts)
    ensures IsReleaseOrder(ts, Order(ts))
  {
    OrderTheorem(ts);
    AcyclicOrder(ts);
    EmittedInReleaseOrder(ts);
  }

  /** Dependencies within a common beginning have the same position in both lists. */
  lemma SameLast(ts: seq<Task>, a: seq<string>, b: seq<string>, n: nat, x: string)
    requires n <= |a| && n <= |b| && a[..n] == b[..n]
    requires forall m :: n <= m < |a| ==> !DependsOn(ts, x, a[m])
    requires forall m :: n <= m < |b| ==> !DependsOn(ts, x, b[m])
    ensures Last(ts, a, x) == Last(ts, b, x)
  {
    var i, j := Last(ts, a, x), Last(ts, b, x);
    assert forall m :: 0 <= m < n ==> a[m] == a[..n][m] == b[..n][m] == b[m];
    assert i < n && j < n;
  }

  /** The dependencies of the id at a position are all before it. */
  lemma NothingAhead(ts: seq<Task>, ids: seq<string>, n: nat, x: string)
    requires NoDuplicates(ids) && DependenciesFirst(ts, ids) && n < |ids| && ids[n] == x
    ensures forall m :: n <= m < |ids| ==> !DependsOn(ts, x, ids[m])
  {
    forall m | n <= m < |ids| ensures ids[m] !in ids[..n] {
    }
  }

  /** ... so with a common beginning, it has no dependency in the rest of the other list either. */
  lemma NothingAheadElsewhere(ts: seq<Task>, a: seq<string>, b: seq<string>, n: nat)
    requires NoDuplicates(a) && NoDuplicates(b) && DependenciesFirst(ts, a)
    requires n < |a| && n < |b| && a[..n] == b[..n]
    ensures forall m :: n <= m < |b| ==> !DependsOn(ts, a[n], b[m])
  {
    forall m | n <= m < |b| ensures b[m] !in b[..n] {
    }
  }

  lemma Elsewhere(a: seq<string>, b: seq<string>, n: nat) returns (m: nat)
    requires NoDuplicates(a) && multiset(a) == multiset(b) && n < |a| && n < |b|
    requires a[..n] == b[..n] && a[n] != b[n]
    ensures n < m < |b| && b[m] == a[n]
  {
    SameMultisetSameLength(a, b);
    assert a[n] in a && a[n] in b;
    assert forall k :: 0 <= k < n ==> a[k] == a[..n][k] == b[..n][k] == b[k];
    m :| 0 <= m < |b| && b[m] == a[n];
  }

  lemma SameNext(ts: seq<Task>, a: seq<string>, b: seq<string>, n: nat)
    requires NoDuplicates(a) && NoDuplicates(b) && multiset(a) == multiset(b)
    requires DependenciesFirst(ts, a) && DependenciesFirst(ts, b)
    requires InReleaseOrder(ts, a, a) && InReleaseOrder(ts, b, b)
    requires n < |a| && n < |b| && a[..n] == b[..n]
    ensures a[n] == b[n]
  {
    if a[n] != b[n] {
      var x, y := a[n], b[n];
      var i := Elsewhere(a, b, n);
      var j := Elsewhere(b, a, n);
      NothingAhead(ts, a, n, x);
      NothingAhead(ts, b, n, y);
      NothingAheadElsewhere(ts, a, b, n);
      NothingAheadElsewhere(ts, b, a, n);
      SameLast(ts, a, b, n, x);
      SameLast(ts, a, b, n, y);
      assert ReleasedBefore(ts, a, a[n], a[j]) && ReleasedBefore(ts, b, b[n], b[i]);
    }
  }

  lemma {:induction false} SameUpTo(ts: seq<Task>, a: seq<string>, b: seq<string>, n: nat)
    requires NoDuplicates(a) && NoDuplicates(b) && multiset(a) == multiset(b)
    requires DependenciesFirst(ts, a) && DependenciesFirst(ts, b)
    requires InReleaseOrder(ts, a, a) && InReleaseOrder(ts, b, b)
    requires n <= |a| && n <= |b|
    ensures a[..n] == b[..n]
  {
    if n > 0 {
      SameUpTo(ts, a, b, n - 1);
      SameNext(ts, a, b, n - 1);
      assert a[..n] == a[..n - 1] + [a[n - 1]] && b[..n] == b[..n - 1] + [b[n - 1]];
    }
  }

  lemma KeysOfPermutation(ts: seq<Task>, us: seq<Task>)
    requires UniqueKeys(ts) && multiset(us) == multiset(ts)
    ensures NoDuplicates(Keys(us)) && multiset(Keys(us)) == multiset(Keys(ts))
  {
    UniqueIgnoresOrder(ts, us);
    AcyclicIgnoresOrder(ts, us);
    KnownIsKeys(us);
    KnownIsKeys(ts);
    var a, b := Keys(us), Keys(ts);
    forall x ensures multiset(a)[x] == multiset(b)[x] {
      OnceOrNever(a, x);
      OnceOrNever(b, x);
      assert x in Elements(a) <==> x in Elements(b);
    }
    assert multiset(a) == multiset(b);
  }

  lemma OnceOrNever(s: seq<string>, x: string)
    requires NoDuplicates(s)
    ensures multiset(s)[x] == if x in Elements(s) then 1 else 0
  {
    if x in s {
      OccursOnce(s, x);
    }
  }

  /** There is one such list only: the result of ordering an acyclic plan is determined. */
  lemma ReleaseOrderUnique(ts: seq<Task>, order: seq<Task>)
    requires UniqueKeys(ts) && Acyclic(ts)
    ensures IsReleaseOrder(ts, order) <==> order == Order(ts)
  {
    OrderIsReleaseOrder(ts);
    if IsReleaseOrder(ts, order) {
      var a, b := Keys(order), Keys(Order(ts));
      KeysOfPermutation(ts, order);
      KeysOfPermutation(ts, Order(ts));
      SameMultisetSameLength(a, b);
      SameUpTo(ts, a, b, |a|);
      assert a[..|a|] == a && b[..|b|] == b;
      SameKeysSameTasks(ts, order, Order(ts));
    }
  }

  lemma SameKeysSameTasks(ts: seq<Task>, us: seq<Task>, vs: seq<Task>)
    requires UniqueKeys(ts) && multiset(us) == multiset(ts) && multiset(vs) == multiset(ts)
    requires Keys(us) == Keys(vs)
    ensures us == vs
  {
    SameMultisetSameLength(us, ts);
    SameMultisetSameLength(vs, ts);
    forall i | 0 <= i < |us| ensures us[i] == vs[i] {
      assert Keys(us)[i] == Keys(vs)[i];
      assert us[i] in us && vs[i] in vs;
      var k :| 0 <= k < |ts| && ts[k] == us[i];
      var l :| 0 <= l < |ts| && ts[l] == vs[i];
    }
  }
}
