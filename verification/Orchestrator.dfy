/** AutoGenOrchestrator: the scheduler's tables and loops, and the execution loop. */
module Orchestrator {
  import opened Common
  import opened Plan
  import opened Scheduler
  import opened SchedulerProofs
  import opened Ordering
  import opened Execution
  import opened RepeatedIds
  import opened ReleaseOrder

  /** The tasks of a list whose agents can be created. */
  function Created(factory: Agents, ts: seq<Task>): seq<Task> {
    if ts == [] then []
    else (if factory.canCreate(ts[0]) then [ts[0]] else []) + Created(factory, ts[1..])
  }

  /** Exactly those tasks, each as often as it is listed, in the order of the list. */
  lemma {:induction false} CreatedFromList(factory: Agents, ts: seq<Task>)
    ensures Subsequence(Created(factory, ts), ts)
    ensures forall t :: multiset(Created(factory, ts))[t] == if factory.canCreate(t) then multiset(ts)[t] else 0
  {
    if ts != [] {
      CreatedFromList(factory, ts[1..]);
      assert ts == [ts[0]] + ts[1..];
      var rest := Created(factory, ts[1..]);
      if factory.canCreate(ts[0]) {
        assert Created(factory, ts)[1..] == rest;
      } else {
        assert Created(factory, ts) == rest;
      }
    }
  }

  class AutoGenOrchestrator {
    /** The specialised agents created so far, each recorded as the task it was made for. */
    var agents: seq<Task>
    const factory: Agents

    constructor (factory: Agents)
      ensures this.factory == factory && agents == []
    {
      this.factory := factory;
      this.agents := [];
    }

    /** Every task starts with no dependants and in-degree 0. */
    method InitTables(subTasks: seq<Task>) returns (graph: Graph, inDegree: Degrees)
      ensures graph.Keys == inDegree.Keys == Known(subTasks)
      ensures forall k :: k in graph ==> graph[k] == [] && inDegree[k] == 0
    {
      graph, inDegree := map[], map[];
      for i := 0 to |subTasks|
        invariant graph.Keys == inDegree.Keys == Known(subTasks[..i])
        invariant forall k :: k in graph ==> graph[k] == [] && inDegree[k] == 0
      {
        var id := subTasks[i].Key();
        assert subTasks[..i + 1] == subTasks[..i] + [subTasks[i]];
        graph := graph[id := []];
        inDegree := inDegree[id := 0];
      }
      assert subTasks[..|subTasks|] == subTasks;
    }

    /** Records one task's dependencies; unknown ones are skipped. */
    method LinkTask(graph0: Graph, inDegree0: Degrees, id: string, dependsOn: seq<string>)
      returns (graph: Graph, inDegree: Degrees)
      requires id in inDegree0
      ensures Net(graph, inDegree) == AddDependencies(Net(graph0, inDegree0), id, dependsOn)
    {
      graph, inDegree := graph0, inDegree0;
      for j := 0 to |dependsOn|
        invariant id in inDegree
        invariant AddDependencies(Net(graph, inDegree), id, dependsOn[j..])
               == AddDependencies(Net(graph0, inDegree0), id, dependsOn)
      {
        var depId := dependsOn[j];
        assert dependsOn[j..] == [depId] + dependsOn[j + 1..];
        if depId in graph {
          graph := graph[depId := graph[depId] + [id]];
          inDegree := inDegree[id := inDegree[id] + 1];
        }
      }
    }

    /** The in-degree and dependants tables. With unique keys a task's in-degree counts the
        known entries of its own dependency list. */
    method BuildGraph(subTasks: seq<Task>) returns (graph: Graph, inDegree: Degrees)
      ensures Net(graph, inDegree) == NetOf(subTasks)
      ensures UniqueKeys(subTasks) ==>
        forall t :: t in subTasks ==> t.Key() in inDegree && inDegree[t.Key()] == CountIn(t.dependsOn, Known(subTasks))
    {
      graph, inDegree := InitTables(subTasks);
      assert graph == EmptyNet(subTasks).graph && inDegree == EmptyNet(subTasks).inDegree;
      for i := 0 to |subTasks|
        invariant graph.Keys == inDegree.Keys == Known(subTasks)
        invariant Known(subTasks[i..]) <= inDegree.Keys
        invariant AddTasks(Net(graph, inDegree), subTasks[i..]) == NetOf(subTasks)
      {
        assert subTasks[i] in subTasks[i..];
        assert Known(subTasks[i + 1..]) <= Known(subTasks[i..]);
        assert subTasks[i..][1..] == subTasks[i + 1..];
        graph, inDegree := LinkTask(graph, inDegree, subTasks[i].Key(), subTasks[i].dependsOn);
      }
      if UniqueKeys(subTasks) {
        UniqueInDegrees(subTasks);
      }
    }

    static lemma UniqueInDegrees(ts: seq<Task>)
      requires UniqueKeys(ts)
      ensures forall t :: t in ts ==>
        t.Key() in NetOf(ts).inDegree && NetOf(ts).inDegree[t.Key()] == CountIn(t.dependsOn, Known(ts))
    {
      NetEffect(ts);
      forall t | t in ts
        ensures t.Key() in NetOf(ts).inDegree && NetOf(ts).inDegree[t.Key()] == CountIn(t.dependsOn, Known(ts))
      {
        var i :| 0 <= i < |ts| && ts[i] == t;
        UniqueListings(ts, i, "", Known(ts));
      }
    }

    /** The ids with in-degree 0, in plan order. */
    method FindSources(subTasks: seq<Task>, inDegree: Degrees, ghost keys: seq<string>) returns (queue: seq<string>)
      requires |keys| == |subTasks| && forall i :: 0 <= i < |keys| ==> keys[i] == subTasks[i].Key()
      requires forall k :: k in keys ==> k in inDegree
      ensures queue == Sources(inDegree, keys)
    {
      queue := [];
      for i := 0 to |subTasks|
        invariant queue == Sources(inDegree, keys[..i])
      {
        SourcesSnoc(inDegree, keys[..i], keys[i]);
        assert keys[..i + 1] == keys[..i] + [keys[i]];
        if inDegree[subTasks[i].Key()] == 0 {
          queue := queue + [subTasks[i].Key()];
        }
      }
      assert keys[..|keys|] == keys;
    }

    /** Lowers the in-degree of each dependant and queues those that reach 0. */
    method ReleaseNeighbours(inDegree0: Degrees, queue0: seq<string>, ghost emitted: seq<string>, neighbours: seq<string>)
      returns (inDegree: Degrees, queue: seq<string>)
      requires forall n :: n in neighbours ==> n in inDegree0
      ensures Frontier(inDegree, queue, emitted) == Visit(Frontier(inDegree0, queue0, emitted), neighbours)
    {
      inDegree, queue := inDegree0, queue0;
      for j := 0 to |neighbours|
        invariant inDegree.Keys == inDegree0.Keys
        invariant Visit(Frontier(inDegree, queue, emitted), neighbours[j..])
               == Visit(Frontier(inDegree0, queue0, emitted), neighbours)
      {
        var neighbourId := neighbours[j];
        VisitStep(Frontier(inDegree, queue, emitted), neighbours, j);
        inDegree := inDegree[neighbourId := inDegree[neighbourId] - 1];
        if inDegree[neighbourId] == 0 {
          queue := queue + [neighbourId];
        }
      }
    }

    /** The queue loop, from the tables to the emitted ids. With unique keys it emits as many
        ids as there are tasks exactly when the plan is acyclic; with any ids, exactly when waiting
        tasks are listed once and no set of ids is stuck. */
    method DrainQueue(subTasks: seq<Task>, graph: Graph, degrees: Degrees) returns (orderedTaskIds: seq<string>)
      requires Net(graph, degrees) == NetOf(subTasks)
      ensures orderedTaskIds == EmittedIds(subTasks)
      ensures UniqueKeys(subTasks) ==> (|orderedTaskIds| == |subTasks| <==> Acyclic(subTasks))
      ensures |orderedTaskIds| == |subTasks| <==> WaitingListedOnce(subTasks) && NoneStuck(subTasks)
    {
      var inDegree := degrees;
      KnownIsKeys(subTasks);
      var queue := FindSources(subTasks, degrees, Keys(subTasks));
      orderedTaskIds := [];
      InitialClosed(subTasks);
      while queue != []
        invariant Closed(graph, Frontier(inDegree, queue, orderedTaskIds))
        invariant Run(graph, Frontier(inDegree, queue, orderedTaskIds)) == Run(graph, Initial(subTasks))
        decreases Measure(Frontier(inDegree, queue, orderedTaskIds))
      {
        StepStaysClosed(graph, Frontier(inDegree, queue, orderedTaskIds));
        var currentId := queue[0];
        assert currentId in graph;
        queue := queue[1..];
        orderedTaskIds := orderedTaskIds + [currentId];
        inDegree, queue := ReleaseNeighbours(inDegree, queue, orderedTaskIds, graph[currentId]);
      }
      EmitsAllIff(subTasks);
      if UniqueKeys(subTasks) {
        UniqueListedOnce(subTasks);
      }
    }

    /** `taskMap`: the last task with a key represents it. */
    method BuildTaskMap(subTasks: seq<Task>) returns (taskMap: map<string, Task>)
      ensures taskMap == TaskMap(subTasks)
    {
      taskMap := map[];
      for i := 0 to |subTasks|
        invariant taskMap == TaskMap(subTasks[..i])
      {
        TaskMapStep(subTasks, i);
        taskMap := taskMap[subTasks[i].Key() := subTasks[i]];
      }
      assert subTasks[..|subTasks|] == subTasks;
    }

    /** Maps ids back to tasks. */
    method MapBack(subTasks: seq<Task>, ids: seq<string>) returns (tasks: seq<Task>)
      requires forall k :: k in ids ==> k in Known(subTasks)
      ensures tasks == Lookup(TaskMap(subTasks), ids)
    {
      var taskMap := BuildTaskMap(subTasks);
      tasks := MapIds(taskMap, ids);
    }

    method MapIds(taskMap: map<string, Task>, ids: seq<string>) returns (tasks: seq<Task>)
      requires forall k :: k in ids ==> k in taskMap
      ensures tasks == Lookup(taskMap, ids)
    {
      ghost var all := Lookup(taskMap, ids);
      tasks := [];
      for i := 0 to |ids|
        invariant tasks == all[..i]
      {
        assert ids[i] in ids;
        var task := taskMap[ids[i]];
        assert all[..i + 1] == all[..i] + [task];
        tasks := tasks + [task];
      }
    }

    static lemma {:induction false} SourcesSnoc(deg: Degrees, ks: seq<string>, k: string)
      requires (forall x :: x in ks ==> x in deg) && k in deg
      ensures Sources(deg, ks + [k]) == Sources(deg, ks) + if deg[k] == 0 then [k] else []
    {
      if ks == [] {
        assert [] + [k] == [k] && [k][1..] == [];
      } else {
        SourcesSnoc(deg, ks[1..], k);
        assert (ks + [k])[1..] == ks[1..] + [k];
      }
    }

    static lemma VisitStep(f: Frontier, ns: seq<string>, j: nat)
      requires (forall n :: n in ns ==> n in f.inDegree) && j < |ns|
      ensures Visit(f, ns[j..]) == Visit(Touch(f, ns[j]), ns[j + 1..])
    {
      assert ns[j..][0] == ns[j] && ns[j..][1..] == ns[j + 1..];
    }

    /** Orders the plan: with unique keys, the same tasks, unchanged if they form a cycle and
        otherwise with every known dependency first, depths non-decreasing, and the tasks in the
        one order in which their last dependencies release them. */
    method OrderSubTasksByDependencies(subTasks: seq<Task>) returns (ordered: seq<Task>)
      ensures ordered == Order(subTasks)
      ensures UniqueKeys(subTasks) ==> multiset(ordered) == multiset(subTasks)
      ensures UniqueKeys(subTasks) && !Acyclic(subTasks) ==> ordered == subTasks
      ensures UniqueKeys(subTasks) && Acyclic(subTasks) ==>
        && DependenciesFirst(subTasks, Keys(ordered)) && DepthSorted(subTasks, Keys(ordered))
        && IsReleaseOrder(subTasks, ordered)
    {
      var graph, inDegree := BuildGraph(subTasks);
      var orderedTaskIds := DrainQueue(subTasks, graph, inDegree);
      if |orderedTaskIds| != |subTasks| {
        ordered := subTasks;
      } else {
        EmittedAreKnown(subTasks);
        ordered := MapBack(subTasks, orderedTaskIds);
      }
      if UniqueKeys(subTasks) {
        OrderTheorem(subTasks);
        if Acyclic(subTasks) {
          OrderIsReleaseOrder(subTasks);
        }
      }
    }

    /** Runs every task once; whatever the plan, there is one result per id. On an acyclic plan with
        unique keys the results are the unique solution of the plan's equation; on a cyclic one
        the tasks ran as written. */
    method ExecuteSubTasks(subTasks: seq<Task>) returns (subTaskResults: Results)
      modifies this
      ensures subTaskResults == Execute(factory, subTasks)
      ensures agents == old(agents) + Created(factory, Order(subTasks))
      ensures subTaskResults.Keys == Known(subTasks)
      ensures UniqueKeys(subTasks) && Acyclic(subTasks) ==>
        forall t :: t in subTasks ==> IsResult(factory, t, subTaskResults, subTaskResults[t.Key()])
      ensures UniqueKeys(subTasks) ==>
        if Acyclic(subTasks) then Solves(factory, subTasks, subTaskResults)
        else subTaskResults == RunAll(factory, subTasks, map[])
    {
      var ordered := OrderSubTasksByDependencies(subTasks);
      subTaskResults := RunInOrder(ordered);
      ExecuteTheorem(factory, subTasks);
      if UniqueKeys(subTasks) && Acyclic(subTasks) {
        SolutionIsOfResults(factory, subTasks, subTaskResults);
      }
    }

    method RunInOrder(ordered: seq<Task>) returns (subTaskResults: Results)
      modifies this
      ensures subTaskResults == RunAll(factory, ordered, map[])
      ensures agents == old(agents) + Created(factory, ordered)
    {
      subTaskResults := map[];
      for i := 0 to |ordered|
        invariant RunAll(factory, ordered[i..], subTaskResults) == RunAll(factory, ordered, map[])
        invariant agents + Created(factory, ordered[i..]) == old(agents) + Created(factory, ordered)
      {
        CreatedHead(factory, ordered, i);
        RunAllHead(factory, ordered, i, subTaskResults);
        Associate(agents, Created(factory, [ordered[i]]), Created(factory, ordered[i + 1..]));
        var result := ExecuteOne(ordered[i], subTaskResults);
        subTaskResults := subTaskResults[ordered[i].Key() := result];
      }
    }

    static lemma CreatedHead(factory: Agents, ts: seq<Task>, i: nat)
      requires i < |ts|
      ensures Created(factory, ts[i..]) == Created(factory, [ts[i]]) + Created(factory, ts[i + 1..])
    {
      assert ts[i..][0] == ts[i] && ts[i..][1..] == ts[i + 1..];
      assert [ts[i]][1..] == [];
    }

    static lemma RunAllHead(factory: Agents, ts: seq<Task>, i: nat, r: Results)
      requires i < |ts|
      ensures RunAll(factory, ts[i..], r) == RunAll(factory, ts[i + 1..], r[ts[i].Key() := ResultOf(factory, ts[i], r)])
    {
      assert ts[i..][0] == ts[i] && ts[i..][1..] == ts[i + 1..];
    }

    /** Creates the specialised agent, builds its prompt and runs it. */
    method ExecuteOne(subTask: Task, subTaskResults: Results) returns (result: string)
      modifies this
      ensures result == ResultOf(factory, subTask, subTaskResults)
      ensures IsResult(factory, subTask, subTaskResults, result)
      ensures agents == old(agents) + Created(factory, [subTask])
    {
      ResultIsResult(factory, subTask, subTaskResults);
      if !factory.canCreate(subTask) {
        return CREATION_FAILED;
      }
      agents := agents + [subTask];
      var prompt := BuildPrompt(subTask, subTaskResults);
      match factory.run(subTask, prompt)
      case Answer(text) => result := text;
      case Throws(message) => result := EXECUTION_FAILED + message;
    }

    /** The prompt with the available results of the dependencies, in `dependsOn` order. */
    method BuildPrompt(subTask: Task, subTaskResults: Results) returns (prompt: string)
      ensures prompt == PromptFor(subTask, subTaskResults)
      ensures IsPrompt(subTask, subTaskResults, prompt)
    {
      PromptIsPrompt(subTask, subTaskResults);
      prompt := subTask.agentTaskPrompt;
      if subTask.dependsOn != [] {
        var dependencyContext := DependencyContext(subTask.dependsOn, subTaskResults, CONTEXT_HEADER);
        prompt := prompt + dependencyContext;
      }
    }

    method DependencyContext(dependsOn: seq<string>, subTaskResults: Results, header: string) returns (context: string)
      ensures context == header + Contributions(dependsOn, subTaskResults)
    {
      context := header;
      for j := 0 to |dependsOn|
        invariant context + Contributions(dependsOn[j..], subTaskResults)
               == header + Contributions(dependsOn, subTaskResults)
      {
        var depId := dependsOn[j];
        ghost var rest := Contributions(dependsOn[j + 1..], subTaskResults);
        assert dependsOn[j..][0] == depId && dependsOn[j..][1..] == dependsOn[j + 1..];
        assert context + Contribution(depId, subTaskResults) + rest == context + (Contribution(depId, subTaskResults) + rest);
        if depId in subTaskResults && subTaskResults[depId] != "" {
          context := context + Contribution(depId, subTaskResults);
        } else {
          assert context + "" == context;
        }
      }
    }
  }
}
