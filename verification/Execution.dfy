/**
 Running a plan (`executeSubTasks`): each task's prompt carries the results of its
 dependencies. The language model behind the specialised agents is a parameter.
 */
module Execution {
  import opened Common
  import opened Plan
  import opened Scheduler
  import opened SchedulerProofs
  import opened Ordering

  datatype Reply = Answer(text: string) | Throws(message: string)

  /** `canCreate` says whether building the agent for a task succeeds, `run` what that agent
      answers to a prompt. */
  datatype Agents = Agents(canCreate: Task -> bool, run: (Task, string) -> Reply)

  type Results = map<string, string>

  const CONTEXT_HEADER := "\n\n**Resultados de Tarefas Anteriores:**\n"
  const CREATION_FAILED := "Erro ao criar agente especialista."
  const EXECUTION_FAILED := "Erro na execução da sub-tarefa: "

  /** One dependency's contribution: nothing when it has no result or an empty one. */
  function Contribution(dep: string, results: Results): string {
    if dep in results && results[dep] != "" then
      "\n--- Resultado da Tarefa " + dep + " ---\n" + results[dep] + "\n"
    else ""
  }

  function Contributions(deps: seq<string>, results: Results): string {
    if deps == [] then "" else Contribution(deps[0], results) + Contributions(deps[1..], results)
  }

  function PromptFor(t: Task, results: Results): string {
    if t.dependsOn == [] then t.agentTaskPrompt
    else t.agentTaskPrompt + (CONTEXT_HEADER + Contributions(t.dependsOn, results))
  }

  function ResultOf(agents: Agents, t: Task, results: Results): string {
    if !agents.canCreate(t) then CREATION_FAILED
    else match agents.run(t, PromptFor(t, results))
      case Answer(text) => text
      case Throws(message) => EXECUTION_FAILED + message
  }

  // ---------- what a prompt and a result are ----------

  /** What one dependency adds to a prompt: a block with its id and its stored result, and nothing
      when there is none or it is empty. */
  ghost predicate IsBlock(dep: string, results: Results, piece: string) {
    if dep in results && results[dep] != "" then
      piece == "\n--- Resultado da Tarefa " + dep + " ---\n" + results[dep] + "\n"
    else piece == ""
  }

  ghost predicate AreBlocks(deps: seq<string>, results: Results, pieces: seq<string>) {
    |pieces| == |deps| && forall i :: 0 <= i < |deps| ==> IsBlock(deps[i], results, pieces[i])
  }

  /** The task's own prompt, alone without dependencies, and otherwise followed by a header and the
      blocks of its dependencies, one by one. */
  ghost predicate IsPrompt(t: Task, results: Results, prompt: string) {
    && (prompt == t.agentTaskPrompt <==> t.dependsOn == [])
    && (t.dependsOn != [] ==>
          exists pieces :: (
            && AreBlocks(t.dependsOn, results, pieces)
            && prompt == t.agentTaskPrompt + ("\n\n**Resultados de Tarefas Anteriores:**\n" + Concat(pieces))))
  }

  /** The text for an agent that cannot be created, the agent's own answer to its prompt, or the
      error prefix with the message it threw. */
  ghost predicate IsResult(agents: Agents, t: Task, results: Results, result: string) {
    if !agents.canCreate(t) then result == "Erro ao criar agente especialista."
    else
      exists prompt :: (
        && IsPrompt(t, results, prompt)
        && match agents.run(t, prompt)
           case Answer(text) => result == text
           case Throws(message) => result == "Erro na execução da sub-tarefa: " + message)
  }

  lemma {:induction false} ContributionsAreBlocks(deps: seq<string>, results: Results) returns (pieces: seq<string>)
    ensures AreBlocks(deps, results, pieces) && Contributions(deps, results) == Concat(pieces)
  {
    if deps == [] {
      pieces := [];
    } else {
      var rest := ContributionsAreBlocks(deps[1..], results);
      pieces := [Contribution(deps[0], results)] + rest;
      assert pieces[1..] == rest;
      forall i | 0 <= i < |deps| ensures IsBlock(deps[i], results, pieces[i]) {
        if i > 0 {
          assert deps[i] == deps[1..][i - 1] && pieces[i] == rest[i - 1];
        }
      }
    }
  }

  lemma PromptIsPrompt(t: Task, results: Results)
    ensures IsPrompt(t, results, PromptFor(t, results))
  {
    if t.dependsOn != [] {
      var pieces := ContributionsAreBlocks(t.dependsOn, results);
      assert |CONTEXT_HEADER| > 0;
      assert |PromptFor(t, results)| > |t.agentTaskPrompt|;
    }
  }

  lemma ResultIsResult(agents: Agents, t: Task, results: Results)
    ensures IsResult(agents, t, results, ResultOf(agents, t, results))
  {
    PromptIsPrompt(t, results);
  }

  /** In a solution every result is one. */
  lemma SolutionIsOfResults(agents: Agents, ts: seq<Task>, r: Results)
    requires Solves(agents, ts, r)
    ensures forall t :: t in ts ==> t.Key() in r && IsResult(agents, t, r, r[t.Key()])
  {
    forall t | t in ts ensures t.Key() in r && IsResult(agents, t, r, r[t.Key()]) {
      var i :| 0 <= i < |ts| && ts[i] == t;
      ResultIsResult(agents, t, r);
    }
  }

  // ---------- running ----------

  /** The tasks run one after another, each seeing the results so far. */
  function RunAll(agents: Agents, order: seq<Task>, results: Results): Results {
    if order == [] then results
    else RunAll(agents, order[1..], results[order[0].Key() := ResultOf(agents, order[0], results)])
  }

  function Execute(agents: Agents, ts: seq<Task>): Results {
    RunAll(agents, Order(ts), map[])
  }

  /** The plan's defining equation: every task has exactly one result, the answer to its own
      prompt extended with the final results of its dependencies. */
  ghost predicate Solves(agents: Agents, ts: seq<Task>, r: Results) {
    && r.Keys == Known(ts)
    && forall i :: 0 <= i < |ts| ==> ts[i].Key() in r && r[ts[i].Key()] == ResultOf(agents, ts[i], r)
  }

  ghost predicate AgreeOn(deps: seq<string>, r: Results, s: Results) {
    forall d :: d in deps ==> (d in r <==> d in s) && (d in r ==> r[d] == s[d])
  }

  lemma {:induction false} SameContributions(deps: seq<string>, r: Results, s: Results)
    requires AgreeOn(deps, r, s)
    ensures Contributions(deps, r) == Contributions(deps, s)
  {
    if deps != [] {
      assert deps[0] in deps;
      SameContributions(deps[1..], r, s);
    }
  }

  lemma SameResult(agents: Agents, t: Task, r: Results, s: Results)
    requires AgreeOn(t.dependsOn, r, s)
    ensures ResultOf(agents, t, r) == ResultOf(agents, t, s)
  {
    SameContributions(t.dependsOn, r, s);
  }

  lemma {:induction false} RunAllKeys(agents: Agents, order: seq<Task>, results: Results)
    ensures RunAll(agents, order, results).Keys == results.Keys + Known(order)
    decreases |order|
  {
    if order != [] {
      var next := results[order[0].Key() := ResultOf(agents, order[0], results)];
      RunAllKeys(agents, order[1..], next);
      assert order == [order[0]] + order[1..];
      assert Known(order) == {order[0].Key()} + Known(order[1..]);
    }
  }

  /** Results already stored under other keys are not touched. */
  lemma {:induction false} RunAllKeeps(agents: Agents, order: seq<Task>, results: Results, k: string)
    requires k in results && k !in Known(order)
    ensures k in RunAll(agents, order, results) && RunAll(agents, order, results)[k] == results[k]
    decreases |order|
  {
    if order != [] {
      assert order[0] in order;
      assert k !in Known(order[1..]);
      RunAllKeeps(agents, order[1..], results[order[0].Key() := ResultOf(agents, order[0], results)], k);
    }
  }

  /** No task from `i` on is a dependency of the i-th one. */
  ghost predicate DependenciesBefore(order: seq<Task>) {
    forall i, j :: 0 <= i <= j < |order| ==> order[j].Key() !in order[i].dependsOn
  }

  /** In a list with unique keys that puts dependencies first, each task's stored result is its
      answer with respect to the final results. */
  lemma {:induction false} RunAllSolves(agents: Agents, order: seq<Task>, results: Results, i: nat)
    requires UniqueKeys(order) && DependenciesBefore(order)
    requires i < |order|
    ensures var r := RunAll(agents, order, results);
      order[i].Key() in r && r[order[i].Key()] == ResultOf(agents, order[i], r)
    decreases |order|
  {
    var next := results[order[0].Key() := ResultOf(agents, order[0], results)];
    var rest, r := order[1..], RunAll(agents, order, results);
    if i > 0 {
      RunAllSolves(agents, rest, next, i - 1);
    } else {
      RunAllKeeps(agents, rest, next, order[0].Key());
      RunAllKeys(agents, rest, next);
      forall d | d in order[0].dependsOn
        ensures (d in results <==> d in r) && (d in results ==> results[d] == r[d])
      {
        assert d != order[0].Key();
        assert d !in Known(rest);
        if d in results {
          RunAllKeeps(agents, rest, next, d);
        }
      }
      SameResult(agents, order[0], results, r);
    }
  }

  /** Nothing depends on a task at its own or a later position. */
  lemma NoLaterDependency(ts: seq<Task>, ids: seq<string>, i: nat, j: nat)
    requires DependenciesFirst(ts, ids) && NoDuplicates(ids)
    requires i <= j < |ids|
    ensures !DependsOn(ts, ids[i], ids[j])
  {
    assert forall k :: 0 <= k < i ==> ids[k] != ids[j];
  }

  lemma OrderPutsDependenciesBefore(ts: seq<Task>, order: seq<Task>)
    requires UniqueKeys(order) && multiset(order) == multiset(ts)
    requires DependenciesFirst(ts, Keys(order))
    ensures DependenciesBefore(order)
  {
    SameMultisetSameLength(ts, order);
    KnownIsKeys(order);
    forall i, j | 0 <= i <= j < |order| ensures order[j].Key() !in order[i].dependsOn {
      assert order[i] in ts && order[j] in order && order[j] in ts;
      NoLaterDependency(ts, Keys(order), i, j);
      assert Keys(order)[i] == order[i].Key() && Keys(order)[j] == order[j].Key();
    }
  }

  lemma OrderedPlan(ts: seq<Task>)
    requires UniqueKeys(ts) && Acyclic(ts)
    ensures multiset(Order(ts)) == multiset(ts)
    ensures UniqueKeys(Order(ts)) && DependenciesBefore(Order(ts))
  {
    OrderTheorem(ts);
    UniqueIgnoresOrder(ts, Order(ts));
    OrderPutsDependenciesBefore(ts, Order(ts));
  }

  lemma RunAllSolvesPlan(agents: Agents, order: seq<Task>)
    requires UniqueKeys(order) && DependenciesBefore(order)
    ensures Solves(agents, order, RunAll(agents, order, map[]))
  {
    RunAllKeys(agents, order, map[]);
    forall i | 0 <= i < |order|
      ensures var r := RunAll(agents, order, map[]);
        order[i].Key() in r && r[order[i].Key()] == ResultOf(agents, order[i], r)
    {
      RunAllSolves(agents, order, map[], i);
    }
  }

  lemma SolvesIgnoresOrder(agents: Agents, ts: seq<Task>, us: seq<Task>, r: Results)
    requires multiset(ts) == multiset(us) && Solves(agents, ts, r)
    ensures Solves(agents, us, r)
  {
    SameMultisetSameLength(ts, us);
    AcyclicIgnoresOrder(ts, us);
    forall i | 0 <= i < |us|
      ensures us[i].Key() in r && r[us[i].Key()] == ResultOf(agents, us[i], r)
    {
      assert us[i] in ts;
      var j :| 0 <= j < |ts| && ts[j] == us[i];
    }
  }

  /** Executing an acyclic plan solves its defining equation. */
  lemma ExecuteSolves(agents: Agents, ts: seq<Task>)
    requires UniqueKeys(ts) && Acyclic(ts)
    ensures Solves(agents, ts, Execute(agents, ts))
  {
    OrderedPlan(ts);
    RunAllSolvesPlan(agents, Order(ts));
    SolvesIgnoresOrder(agents, Order(ts), ts, Execute(agents, ts));
  }

  /** Whatever the plan, there is one result per key and nothing else. */
  lemma ExecuteKeys(agents: Agents, ts: seq<Task>)
    ensures Execute(agents, ts).Keys == Known(ts)
  {
    OrderKeepsKeys(ts);
    RunAllKeys(agents, Order(ts), map[]);
  }

  lemma OrderKeepsKeys(ts: seq<Task>)
    ensures Known(Order(ts)) == Known(ts)
  {
    var ids := EmittedIds(ts);
    if |ids| == |ts| {
      EmittedAreKnown(ts);
      EmittedIsPermutationOfKeys(ts);
      SameMultisetSameLength(ids, Keys(ts));
      KnownIsKeys(ts);
      LookedUpKeys(TaskMap(ts), ids);
    }
  }

  /** Tasks looked up by their keys have those keys. */
  lemma LookedUpKeys(m: map<string, Task>, ids: seq<string>)
    requires forall k :: k in ids ==> k in m && m[k].Key() == k
    ensures Known(Lookup(m, ids)) == Elements(ids)
  {
    var ts := Lookup(m, ids);
    forall i | 0 <= i < |ids| ensures ts[i] in ts && ts[i].Key() == ids[i] {
      assert ids[i] in ids;
    }
    forall k ensures k in Known(ts) <==> k in Elements(ids) {
      if k in Known(ts) {
        var t :| t in ts && t.Key() == k;
        var i :| 0 <= i < |ts| && ts[i] == t;
        assert ids[i] == k;
      }
      if k in ids {
        var i :| 0 <= i < |ids| && ids[i] == k;
        assert ts[i].Key() == k;
      }
    }
  }

  /** A cyclic plan runs in the order it was written. */
  lemma ExecuteCyclic(agents: Agents, ts: seq<Task>)
    requires UniqueKeys(ts) && !Acyclic(ts)
    ensures Execute(agents, ts) == RunAll(agents, ts, map[])
  {
    OrderTheorem(ts);
  }

  /** Two solutions agree on the i-th task of a list that puts dependencies first. */
  lemma {:induction false} SolutionsAgreeAt(agents: Agents, order: seq<Task>, r: Results, s: Results, i: nat)
    requires UniqueKeys(order) && DependenciesBefore(order) && i < |order|
    requires Solves(agents, order, r) && Solves(agents, order, s)
    ensures r[order[i].Key()] == s[order[i].Key()]
    decreases i
  {
    forall d | d in order[i].dependsOn
      ensures (d in r <==> d in s) && (d in r ==> r[d] == s[d])
    {
      if d in r {
        var j := IndexOfKey(order, d);
        assert j < i;
        SolutionsAgreeAt(agents, order, r, s, j);
      }
    }
    SameResult(agents, order[i], r, s);
  }

  /** The equation of an acyclic plan has only one solution. */
  lemma SolutionUnique(agents: Agents, ts: seq<Task>, r: Results, s: Results)
    requires UniqueKeys(ts) && Acyclic(ts)
    requires Solves(agents, ts, r) && Solves(agents, ts, s)
    ensures r == s
  {
    var order := Order(ts);
    OrderedPlan(ts);
    assert Solves(agents, order, r) by { SolvesIgnoresOrder(agents, ts, order, r); }
    assert Solves(agents, order, s) by { SolvesIgnoresOrder(agents, ts, order, s); }
    SolutionsAgree(agents, order, r, s);
  }

  lemma SolutionsAgree(agents: Agents, order: seq<Task>, r: Results, s: Results)
    requires UniqueKeys(order) && DependenciesBefore(order)
    requires Solves(agents, order, r) && Solves(agents, order, s)
    ensures r == s
  {
    forall k | k in r ensures r[k] == s[k] {
      var i := IndexOfKey(order, k);
      SolutionsAgreeAt(agents, order, r, s, i);
    }
  }

  /** Confluence: how the planner happened to order an acyclic plan does not matter. */
  lemma ExecuteIgnoresOrder(agents: Agents, ts: seq<Task>, us: seq<Task>)
    requires UniqueKeys(ts) && Acyclic(ts) && multiset(ts) == multiset(us)
    ensures Execute(agents, ts) == Execute(agents, us)
  {
    UniqueIgnoresOrder(ts, us);
    AcyclicIgnoresOrder(ts, us);
    ExecuteSolves(agents, ts);
    ExecuteSolves(agents, us);
    SolvesIgnoresOrder(agents, us, ts, Execute(agents, us));
    SolutionUnique(agents, ts, Execute(agents, ts), Execute(agents, us));
  }

  lemma ExecuteTheorem(agents: Agents, ts: seq<Task>)
    ensures Execute(agents, ts).Keys == Known(ts)
    ensures UniqueKeys(ts) ==>
      if Acyclic(ts) then Solves(agents, ts, Execute(agents, ts))
      else Execute(agents, ts) == RunAll(agents, ts, map[])
  {
    ExecuteKeys(agents, ts);
    if !UniqueKeys(ts) {
    } else if Acyclic(ts) {
      ExecuteSolves(agents, ts);
    } else {
      ExecuteCyclic(agents, ts);
    }
  }
}
