/**
 The sub-task plan that AutoGenOrchestrator works on, its dependency relation,
 and the reference notions its scheduler is measured against: dependency walks,
 acyclicity, and depth (length of the longest dependency chain below a task).
 */
module Plan {
  import opened Common

  /** A sub-task. A missing `id` is the empty string and a missing `dependsOn` the
      empty list: the code treats each pair alike. */
  datatype Task = Task(
    id: string,
    taskDescription: string,
    agentRole: string,
    agentObjective: string,
    agentTaskPrompt: string,
    enableGoogleSearch: bool,
    dependsOn: seq<string>)
  {
    /** `task.id || task.taskDescription`. */
    function Key(): (k: string)
      ensures id != "" ==> k == id
      ensures id == "" ==> k == taskDescription
    {
      if id != "" then id else taskDescription
    }
  }

  function Keys(ts: seq<Task>): (ks: seq<string>)
    ensures |ks| == |ts|
    ensures forall i :: 0 <= i < |ts| ==> ks[i] == ts[i].Key()
  {
    seq(|ts|, i requires 0 <= i < |ts| => ts[i].Key())
  }

  function Known(ts: seq<Task>): set<string> {
    set t | t in ts :: t.Key()
  }

  predicate UniqueKeys(ts: seq<Task>) {
    forall i, j :: 0 <= i < j < |ts| ==> ts[i].Key() != ts[j].Key()
  }

  /** Task `x` lists the known task `d` as a dependency. */
  ghost predicate DependsOn(ts: seq<Task>, x: string, d: string) {
    d in Known(ts) && exists t :: t in ts && t.Key() == x && d in t.dependsOn
  }

  /** A path along the known-dependency relation. */
  ghost predicate IsWalk(ts: seq<Task>, p: seq<string>) {
    && p != []
    && (forall i :: 0 <= i < |p| ==> p[i] in Known(ts))
    && (forall i, j :: 0 <= i < j < |p| && j == i + 1 ==> DependsOn(ts, p[i], p[j]))
  }

  ghost predicate IsCycle(ts: seq<Task>, p: seq<string>) {
    IsWalk(ts, p) && |p| >= 2 && p[0] == p[|p| - 1]
  }

  /** No task depends, directly or not, on itself; unknown dependencies do not count. */
  ghost predicate Acyclic(ts: seq<Task>) {
    !exists p :: IsCycle(ts, p)
  }

  /** There is a chain of `k` known dependencies starting at `x`. */
  ghost predicate HasChain(ts: seq<Task>, x: string, k: nat)
    decreases k
  {
    if k == 0 then x in Known(ts)
    else x in Known(ts) && exists d :: DependsOn(ts, x, d) && HasChain(ts, d, k - 1)
  }

  ghost function LongestUpTo(ts: seq<Task>, x: string, k: nat): (r: nat)
    ensures r <= k
    ensures forall m: nat :: r < m <= k ==> !HasChain(ts, x, m)
    ensures r > 0 ==> HasChain(ts, x, r)
  {
    if k == 0 || HasChain(ts, x, k) then k else LongestUpTo(ts, x, k - 1)
  }

  /** Length of the longest known-dependency chain below `x` (meaningful on acyclic plans). */
  ghost function Depth(ts: seq<Task>, x: string): nat {
    LongestUpTo(ts, x, |ts|)
  }

  lemma KeyIffKnown(ts: seq<Task>, k: string)
    ensures k in Known(ts) <==> k in Keys(ts)
  {
    if k in Known(ts) {
      var t :| t in ts && t.Key() == k;
      var i :| 0 <= i < |ts| && ts[i] == t;
      assert Keys(ts)[i] == k;
    }
    if k in Keys(ts) {
      var i :| 0 <= i < |ts| && Keys(ts)[i] == k;
      assert ts[i] in ts;
    }
  }

  lemma UniqueIsNoDuplicates(ts: seq<Task>)
    ensures UniqueKeys(ts) <==> NoDuplicates(Keys(ts))
  {}

  lemma KnownIsKeys(ts: seq<Task>)
    ensures Known(ts) == Elements(Keys(ts))
    ensures |Known(ts)| <= |ts|
    ensures UniqueKeys(ts) <==> NoDuplicates(Keys(ts))
  {
    forall k ensures k in Known(ts) <==> k in Keys(ts) {
      KeyIffKnown(ts, k);
    }
    assert Known(ts) == Elements(Keys(ts));
    ElementsCard(Keys(ts));
    UniqueIsNoDuplicates(ts);
  }

  lemma {:induction false} ChainToWalk(ts: seq<Task>, x: string, k: nat) returns (p: seq<string>)
    requires HasChain(ts, x, k)
    ensures IsWalk(ts, p) && |p| == k + 1 && p[0] == x
    decreases k
  {
    if k == 0 {
      p := [x];
    } else {
      var d :| DependsOn(ts, x, d) && HasChain(ts, d, k - 1);
      var q := ChainToWalk(ts, d, k - 1);
      p := [x] + q;
    }
  }

  lemma {:induction false} WalkToChain(ts: seq<Task>, p: seq<string>)
    requires IsWalk(ts, p)
    ensures HasChain(ts, p[0], |p| - 1)
  {
    if |p| > 1 {
      var q := p[1..];
      WalkToChain(ts, q);
      assert DependsOn(ts, p[0], p[1]);
    }
  }

  lemma {:induction false} ChainShortens(ts: seq<Task>, x: string, k: nat, m: nat)
    requires HasChain(ts, x, k) && m <= k
    ensures HasChain(ts, x, m)
    decreases k
  {
    if m > 0 {
      var d :| DependsOn(ts, x, d) && HasChain(ts, d, k - 1);
      ChainShortens(ts, d, k - 1, m - 1);
    }
  }

  lemma SubWalk(ts: seq<Task>, p: seq<string>, i: nat, j: nat)
    requires IsWalk(ts, p) && i < j <= |p|
    ensures IsWalk(ts, p[i..j])
  {
    var c := p[i..j];
    forall m, n | 0 <= m < n < |c| && n == m + 1 ensures DependsOn(ts, c[m], c[n]) {
      assert c[m] == p[i + m] && c[n] == p[i + n];
    }
  }

  lemma RevisitIsCycle(ts: seq<Task>, p: seq<string>, i: nat, j: nat)
    requires IsWalk(ts, p) && i < j < |p| && p[i] == p[j]
    ensures !Acyclic(ts)
  {
    SubWalk(ts, p, i, j + 1);
    var c := p[i..j + 1];
    assert c[0] == p[i] && c[|c| - 1] == p[j];
    assert IsCycle(ts, c);
  }

  /** A chain with as many steps as there are tasks revisits a task, so it closes a cycle. */
  lemma LongChainCloses(ts: seq<Task>, x: string, k: nat)
    requires HasChain(ts, x, k) && k >= |ts|
    ensures !Acyclic(ts)
  {
    var p := ChainToWalk(ts, x, k);
    var known := Known(ts);
    assert |known| <= |ts| by { KnownIsKeys(ts); }
    var i, j := Pigeonhole(p, known);
    RevisitIsCycle(ts, p, i, j);
  }

  /** On an acyclic plan Depth is exact: chains of length k exist just up to it. */
  lemma DepthExact(ts: seq<Task>, x: string, k: nat)
    requires Acyclic(ts) && x in Known(ts)
    ensures HasChain(ts, x, k) <==> k <= Depth(ts, x)
  {
    if HasChain(ts, x, k) && k >= |ts| {
      LongChainCloses(ts, x, k);
    }
    if k <= Depth(ts, x) {
      assert HasChain(ts, x, Depth(ts, x));
      ChainShortens(ts, x, Depth(ts, x), k);
    }
  }

  ghost predicate HasDependencyIn(ts: seq<Task>, live: set<string>, x: string) {
    exists d :: DependsOn(ts, x, d) && d in live
  }

  /** Tasks that all wait for one another admit chains of every length. */
  lemma {:induction false} CycleUnrolls(ts: seq<Task>, live: set<string>, x: string, k: nat)
    requires live <= Known(ts)
    requires forall y {:trigger HasDependencyIn(ts, live, y)} :: y in live ==> HasDependencyIn(ts, live, y)
    requires x in live
    ensures HasChain(ts, x, k)
    decreases k
  {
    if k > 0 {
      assert HasDependencyIn(ts, live, x);
      var d :| DependsOn(ts, x, d) && d in live;
      CycleUnrolls(ts, live, d, k - 1);
    }
  }

  /** The known-dependency relation, and so acyclicity, ignores the order of the plan. */
  lemma AcyclicIgnoresOrder(ts: seq<Task>, us: seq<Task>)
    requires multiset(ts) == multiset(us)
    ensures Acyclic(ts) <==> Acyclic(us)
    ensures Known(ts) == Known(us)
  {
    SameMultisetSameLength(ts, us);
    assert forall x, d :: DependsOn(ts, x, d) <==> DependsOn(us, x, d);
    assert forall p :: IsCycle(ts, p) <==> IsCycle(us, p);
  }

  /** Unique keys survive reordering. */
  lemma UniqueIgnoresOrder(ts: seq<Task>, us: seq<Task>)
    requires multiset(ts) == multiset(us)
    requires UniqueKeys(ts)
    ensures UniqueKeys(us)
  {
    SameMultisetSameLength(ts, us);
    AcyclicIgnoresOrder(ts, us);
    KnownIsKeys(ts);
    KnownIsKeys(us);
    ElementsCard(Keys(ts));
    FullCardNoDuplicates(Keys(us));
  }
}
