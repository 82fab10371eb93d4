/**
 The dependency scheduler (`orderSubTasksByDependencies`) as a pure function over
 plans, and what it guarantees. The class AutoGenOrchestrator runs the same
 algorithm with loops over its tables and is proved equal to `Order`.
 */
module Scheduler {
  import opened Common
  import opened Plan

  type Graph = map<string, seq<string>>
  type Degrees = map<string, int>

  /** `graph` (dependants of each task, one entry per listing) and `inDegree`. */
  datatype Net = Net(graph: Graph, inDegree: Degrees)

  /** The queue loop's variables. */
  datatype Frontier = Frontier(inDegree: Degrees, queue: seq<string>, emitted: seq<string>)

  // ---------- the algorithm ----------

  function EmptyNet(ts: seq<Task>): (n: Net)
    ensures n.graph.Keys == n.inDegree.Keys == Known(ts)
  {
    Net(map k | k in Known(ts) :: [], map k | k in Known(ts) :: 0)
  }

  function AddDependencies(net: Net, id: string, deps: seq<string>): (r: Net)
    requires id in net.inDegree
    ensures r.graph.Keys == net.graph.Keys && r.inDegree.Keys == net.inDegree.Keys
    decreases |deps|
  {
    if deps == [] then net
    else if deps[0] in net.graph then
      AddDependencies(
        Net(net.graph[deps[0] := net.graph[deps[0]] + [id]], net.inDegree[id := net.inDegree[id] + 1]),
        id, deps[1..])
    else AddDependencies(net, id, deps[1..])
  }

  function AddTasks(net: Net, ts: seq<Task>): (r: Net)
    requires Known(ts) <= net.inDegree.Keys
    ensures r.graph.Keys == net.graph.Keys && r.inDegree.Keys == net.inDegree.Keys
    decreases |ts|
  {
    if ts == [] then net
    else
      assert ts[0].Key() in Known(ts);
      assert Known(ts[1..]) <= Known(ts);
      AddTasks(AddDependencies(net, ts[0].Key(), ts[0].dependsOn), ts[1..])
  }

  function NetOf(ts: seq<Task>): (r: Net)
    ensures r.graph.Keys == r.inDegree.Keys == Known(ts)
  {
    AddTasks(EmptyNet(ts), ts)
  }

  /** Ids of the tasks whose in-degree is 0, in plan order (once per listing of the key). */
  function Sources(deg: Degrees, ks: seq<string>): seq<string>
    requires forall k :: k in ks ==> k in deg
  {
    if ks == [] then []
    else (if deg[ks[0]] == 0 then [ks[0]] else []) + Sources(deg, ks[1..])
  }

  function Blocked(deg: Degrees): set<string> {
    set k | k in deg && deg[k] > 0
  }

  /** Drops by one in each round of the queue loop, whatever the plan. */
  function Measure(f: Frontier): nat {
    |Blocked(f.inDegree)| + |f.queue|
  }

  /** One neighbour is visited: its in-degree drops, and on reaching 0 it is queued. */
  function Touch(f: Frontier, n: string): (r: Frontier)
    requires n in f.inDegree
    ensures Measure(r) == Measure(f)
  {
    var d := f.inDegree[n] - 1;
    var r := Frontier(f.inDegree[n := d], if d == 0 then f.queue + [n] else f.queue, f.emitted);
    assert Blocked(r.inDegree) == if d == 0 then Blocked(f.inDegree) - {n} else Blocked(f.inDegree);
    r
  }

  function Visit(f: Frontier, ns: seq<string>): (r: Frontier)
    requires forall n :: n in ns ==> n in f.inDegree
    ensures r.inDegree.Keys == f.inDegree.Keys && r.emitted == f.emitted && f.queue <= r.queue
    ensures Measure(r) == Measure(f)
    decreases |ns|
  {
    if ns == [] then f else Visit(Touch(f, ns[0]), ns[1..])
  }

  /** Every queued id and every dependant is a known task. */
  predicate Closed(g: Graph, f: Frontier) {
    && g.Keys == f.inDegree.Keys
    && (forall k :: k in f.queue ==> k in g)
    && (forall k, n :: k in g && n in g[k] ==> n in g)
  }

  function Step(g: Graph, f: Frontier): (r: Frontier)
    requires Closed(g, f) && f.queue != []
    ensures Measure(r) == Measure(f) - 1
  {
    var current := f.queue[0];
    var popped := Frontier(f.inDegree, f.queue[1..], f.emitted + [current]);
    Visit(popped, g[current])
  }

  lemma {:induction false} VisitStaysClosed(f: Frontier, ns: seq<string>)
    requires forall n :: n in ns ==> n in f.inDegree
    requires forall k :: k in f.queue ==> k in f.inDegree
    ensures forall k :: k in Visit(f, ns).queue ==> k in f.inDegree
    decreases |ns|
  {
    if ns != [] {
      VisitStaysClosed(Touch(f, ns[0]), ns[1..]);
    }
  }

  lemma StepStaysClosed(g: Graph, f: Frontier)
    requires Closed(g, f) && f.queue != []
    ensures Closed(g, Step(g, f))
  {
    var current := f.queue[0];
    var popped := Frontier(f.inDegree, f.queue[1..], f.emitted + [current]);
    assert current in g;
    VisitStaysClosed(popped, g[current]);
  }

  function Run(g: Graph, f: Frontier): Frontier
    requires Closed(g, f)
    decreases Measure(f)
  {
    if f.queue == [] then f
    else
      StepStaysClosed(g, f);
      Run(g, Step(g, f))
  }

  // ---------- what the tables hold ----------

  /** Entries of `deps` that lie in `s`, counted with repetition. */
  function CountIn(deps: seq<string>, s: set<string>): nat {
    if deps == [] then 0 else (if deps[0] in s then 1 else 0) + CountIn(deps[1..], s)
  }

  /** How often the tasks keyed `x` list `d`. */
  function Listings(ts: seq<Task>, x: string, d: string): nat {
    if ts == [] then 0
    else (if ts[0].Key() == x then multiset(ts[0].dependsOn)[d] else 0) + Listings(ts[1..], x, d)
  }

  /** How many entries in `s` the tasks keyed `x` list. */
  function ListingsIn(ts: seq<Task>, x: string, s: set<string>): nat {
    if ts == [] then 0
    else (if ts[0].Key() == x then CountIn(ts[0].dependsOn, s) else 0) + ListingsIn(ts[1..], x, s)
  }

  lemma {:induction false} AddDependenciesEffect(net: Net, id: string, deps: seq<string>)
    requires id in net.inDegree
    ensures var r := AddDependencies(net, id, deps);
      && (forall x :: x in net.inDegree ==>
            r.inDegree[x] == net.inDegree[x] + if x == id then CountIn(deps, net.graph.Keys) else 0)
      && (forall d, x :: d in net.graph ==>
            multiset(r.graph[d])[x] == multiset(net.graph[d])[x] + if x == id then multiset(deps)[d] else 0)
    decreases |deps|
  {
    if deps != [] {
      assert deps == [deps[0]] + deps[1..];
      var e := deps[0];
      if e in net.graph {
        var n := Net(net.graph[e := net.graph[e] + [id]], net.inDegree[id := net.inDegree[id] + 1]);
        assert n.graph.Keys == net.graph.Keys;
        AddDependenciesEffect(n, id, deps[1..]);
      } else {
        AddDependenciesEffect(net, id, deps[1..]);
      }
    }
  }

  lemma {:induction false} AddTasksEffect(net: Net, ts: seq<Task>)
    requires Known(ts) <= net.inDegree.Keys
    ensures var r := AddTasks(net, ts);
      && (forall x :: x in net.inDegree ==>
            r.inDegree[x] == net.inDegree[x] + ListingsIn(ts, x, net.graph.Keys))
      && (forall d, x :: d in net.graph ==>
            multiset(r.graph[d])[x] == multiset(net.graph[d])[x] + Listings(ts, x, d))
    decreases |ts|
  {
    if ts != [] {
      assert ts[0].Key() in Known(ts);
      assert Known(ts[1..]) <= Known(ts);
      AddDependenciesEffect(net, ts[0].Key(), ts[0].dependsOn);
      AddTasksEffect(AddDependencies(net, ts[0].Key(), ts[0].dependsOn), ts[1..]);
    }
  }

  /** The tables built from a plan: dependants with multiplicity, and known-dependency counts. */
  lemma NetEffect(ts: seq<Task>)
    ensures forall x :: x in Known(ts) ==> NetOf(ts).inDegree[x] == ListingsIn(ts, x, Known(ts))
    ensures forall d, x :: d in Known(ts) ==> multiset(NetOf(ts).graph[d])[x] == Listings(ts, x, d)
  {
    AddTasksEffect(EmptyNet(ts), ts);
  }

  lemma {:induction false} UnlistedKey(ts: seq<Task>, x: string, d: string, s: set<string>)
    requires x !in Keys(ts)
    ensures Listings(ts, x, d) == 0 && ListingsIn(ts, x, s) == 0
  {
    if ts != [] {
      assert x !in Keys(ts[1..]);
      assert Keys(ts)[0] == ts[0].Key();
      UnlistedKey(ts[1..], x, d, s);
    }
  }

  /** With unique keys the totals are those of the one task. */
  lemma {:induction false} UniqueListings(ts: seq<Task>, i: nat, d: string, s: set<string>)
    requires UniqueKeys(ts) && i < |ts|
    ensures Listings(ts, ts[i].Key(), d) == multiset(ts[i].dependsOn)[d]
    ensures ListingsIn(ts, ts[i].Key(), s) == CountIn(ts[i].dependsOn, s)
  {
    if i == 0 {
      UnlistedKey(ts[1..], ts[0].Key(), d, s);
    } else {
      UniqueListings(ts[1..], i - 1, d, s);
    }
  }

  lemma {:induction false} SourcesEffect(deg: Degrees, ks: seq<string>)
    requires forall k :: k in ks ==> k in deg
    ensures forall k :: k in Sources(deg, ks) ==> k in ks
    ensures forall x :: x in deg ==> multiset(Sources(deg, ks))[x] == if deg[x] == 0 then multiset(ks)[x] else 0
  {
    if ks != [] {
      assert ks == [ks[0]] + ks[1..];
      SourcesEffect(deg, ks[1..]);
    }
  }

  function Initial(ts: seq<Task>): Frontier {
    var net := NetOf(ts);
    KnownIsKeys(ts);
    Frontier(net.inDegree, Sources(net.inDegree, Keys(ts)), [])
  }

  lemma InitialClosed(ts: seq<Task>)
    ensures Closed(NetOf(ts).graph, Initial(ts))
  {
    var net := NetOf(ts);
    KnownIsKeys(ts);
    SourcesEffect(net.inDegree, Keys(ts));
    NetEffect(ts);
    forall k, n | k in net.graph && n in net.graph[k] ensures n in net.graph {
      assert multiset(net.graph[k])[n] > 0;
      if n !in Keys(ts) {
        UnlistedKey(ts, n, k, {});
      }
    }
  }

  /** The ids the queue loop emits. */
  function EmittedIds(ts: seq<Task>): seq<string> {
    InitialClosed(ts);
    Run(NetOf(ts).graph, Initial(ts)).emitted
  }

  /** `taskMap`: when a key occurs more than once, the last task with it wins. */
  function TaskMap(ts: seq<Task>): (m: map<string, Task>)
    ensures m.Keys == Known(ts)
    ensures forall k :: k in m ==> m[k] in ts && m[k].Key() == k
    decreases |ts|
  {
    if ts == [] then map[]
    else
      var last := ts[|ts| - 1];
      assert ts == ts[..|ts| - 1] + [last];
      TaskMap(ts[..|ts| - 1])[last.Key() := last]
  }

  lemma TaskMapStep(ts: seq<Task>, i: nat)
    requires i < |ts|
    ensures TaskMap(ts[..i + 1]) == TaskMap(ts[..i])[ts[i].Key() := ts[i]]
  {
    var u := ts[..i + 1];
    assert u[..|u| - 1] == ts[..i] && u[|u| - 1] == ts[i];
  }

  /** The last of the first `n` tasks with a key represents it. */
  lemma {:induction false} LastTaskWins(ts: seq<Task>, n: nat, i: nat)
    requires i < n <= |ts| && forall j :: i < j < n ==> ts[j].Key() != ts[i].Key()
    ensures ts[i].Key() in TaskMap(ts[..n]) && TaskMap(ts[..n])[ts[i].Key()] == ts[i]
    decreases n
  {
    TaskMapStep(ts, n - 1);
    if i < n - 1 {
      LastTaskWins(ts, n - 1, i);
    }
  }

  function Lookup(m: map<string, Task>, ks: seq<string>): (r: seq<Task>)
    requires forall k :: k in ks ==> k in m
    ensures |r| == |ks|
    ensures forall i :: 0 <= i < |ks| ==> r[i] == m[ks[i]]
  {
    seq(|ks|, i requires 0 <= i < |ks| => m[ks[i]])
  }
}
