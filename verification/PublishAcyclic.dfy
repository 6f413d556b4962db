/** The depth-first guard that refuses a publish run whose dependencies loop. */
module PublishAcyclic {
  import opened PublishGraph
  import opened PublishJobs

  datatype Mark = Visiting | Done

  /** `Cycle(chain)` is the thrown error: the names visited, ending with the name met again. */
  datatype Verdict = Fine | Cycle(chain: seq<string>)

  class CycleGuard {
    const graph: Graph
    var state: map<string, Mark>
    // The names marked Done, in the order they were finished.
    ghost var finished: seq<string>

    constructor (graph: Graph)
      ensures this.graph == graph && state == map[] && finished == []
    {
      this.graph := graph;
      state := map[];
      finished := [];
    }

    ghost predicate Valid(chain: seq<string>)
      reads this
    {
      Consistent(graph, state, finished, chain)
    }

    /** Visits `name`, reached along `chain`. A call marks a name or returns at once, so the search terminates. */
    method Visit(name: string, chain: seq<string>) returns (v: Verdict)
      requires Valid(chain) && IsWalk(graph, chain + [name])
      modifies this
      ensures v.Fine? ==> Valid(chain) && name in finished
      ensures v.Cycle? ==> Repeats(graph, v.chain)
      ensures old(state.Keys) <= state.Keys && old(finished) <= finished
      decreases graph.Keys - state.Keys, 0
    {
      MarkMeans(graph, state, finished, chain, name);
      if name in state {
        if state[name] == Visiting {
          return Cycle(chain + [name]);
        }
        return Fine;
      }
      StartIsConsistent(graph, state, finished, chain, name);
      state := state[name := Visiting];
      v := VisitDependencies(name, chain);
      if v.Cycle? {
        return;
      }
      FinishIsConsistent(graph, state, finished, chain, name);
      state := state[name := Done];
      finished := finished + [name];
    }

    /** Visits what `name` depends on, in order; unknown names are skipped. */
    method VisitDependencies(name: string, chain: seq<string>) returns (v: Verdict)
      requires Valid(chain + [name]) && IsWalk(graph, chain + [name]) && name in graph
      modifies this
      ensures v.Fine? ==> Valid(chain + [name]) && forall k :: 0 <= k < |graph[name]| && graph[name][k] in graph ==> graph[name][k] in finished
      ensures v.Cycle? ==> Repeats(graph, v.chain)
      ensures old(state.Keys) <= state.Keys && old(finished) <= finished
      decreases graph.Keys - state.Keys, 1
    {
      var deps := graph[name];
      for i := 0 to |deps|
        invariant Valid(chain + [name])
        invariant old(state.Keys) <= state.Keys && old(finished) <= finished
        invariant forall k :: 0 <= k < i && deps[k] in graph ==> deps[k] in finished
      {
        if deps[i] in graph {
          ExtendWalk(graph, chain + [name], deps[i]);
          v := Visit(deps[i], chain + [name]);
          if v.Cycle? {
            return;
          }
        }
      }
      v := Fine;
    }
  }

  /** The marks agree with the search: Done names are the finished ones, Visiting names form the current chain. */
  ghost predicate Consistent(g: Graph, state: map<string, Mark>, finished: seq<string>, chain: seq<string>) {
    && state.Keys <= g.Keys
    && (forall n :: n in finished <==> n in state && state[n] == Done)
    && (forall n :: n in chain <==> n in state && state[n] == Visiting)
    && Complete(g, finished)
  }

  /** The chain in the error is a walk whose last name occurred before. */
  ghost predicate Repeats(g: Graph, p: seq<string>) {
    IsWalk(g, p) && |p| >= 2 && p[|p| - 1] in p[..|p| - 1]
  }

  /** What the mark of the next name says about it. */
  lemma {:induction false} MarkMeans(g: Graph, state: map<string, Mark>, finished: seq<string>, chain: seq<string>, name: string)
    requires Consistent(g, state, finished, chain) && IsWalk(g, chain + [name])
    ensures name in g
    ensures name in state && state[name] == Done ==> name in finished
    ensures name in state && state[name] == Visiting ==> Repeats(g, chain + [name])
    ensures name !in state ==> name !in chain
  {
    assert (chain + [name])[|chain|] == name && (chain + [name])[..|chain|] == chain;
  }

  lemma {:induction false} RepeatingMeansCycle(g: Graph, p: seq<string>)
    requires Repeats(g, p)
    ensures HasCycle(g)
  {
    var last := |p| - 1;
    var k :| 0 <= k < last && p[k] == p[last];
    CutCycle(g, p, k, last);
  }

  lemma {:induction false} StartIsConsistent(g: Graph, state: map<string, Mark>, finished: seq<string>, chain: seq<string>, name: string)
    requires Consistent(g, state, finished, chain) && name in g && name !in state
    ensures Consistent(g, state[name := Visiting], finished, chain + [name])
  {
  }

  lemma {:induction false} FinishIsConsistent(g: Graph, state: map<string, Mark>, finished: seq<string>, chain: seq<string>, name: string)
    requires Consistent(g, state, finished, chain + [name]) && name !in chain
    requires forall k :: 0 <= k < |g[name]| && g[name][k] in g ==> g[name][k] in finished
    ensures Consistent(g, state[name := Done], finished + [name], chain)
  {
    assert name in chain + [name];
    AppendFinished(g, finished, name);
    assert forall n :: n in chain + [name] <==> n in chain || n == name;
  }

  /** The guard: it accepts exactly the graphs without a cycle, and a refusal carries a walk that repeats its end. */
  method AssertAcyclic(jobs: seq<Job>) returns (v: Verdict)
    ensures v.Fine? <==> !HasCycle(ByName(jobs))
    ensures v.Cycle? ==> Repeats(ByName(jobs), v.chain)
  {
    ghost var finished;
    v, finished := VisitAll(ByName(jobs), jobs);
    if v.Cycle? {
      RepeatingMeansCycle(ByName(jobs), v.chain);
    } else {
      AllFinished(jobs, finished);
    }
  }

  /** Visits every job; `finished` is the order in which the names were marked Done. */
  method VisitAll(g: Graph, jobs: seq<Job>) returns (v: Verdict, ghost finished: seq<string>)
    requires forall i :: 0 <= i < |jobs| ==> jobs[i].name in g
    ensures v.Cycle? ==> Repeats(g, v.chain)
    ensures v.Fine? ==> Complete(g, finished) && FinishedUpTo(jobs, |jobs|, finished)
  {
    var guard := new CycleGuard(g);
    for i := 0 to |jobs|
      invariant guard.graph == g && guard.Valid([])
      invariant FinishedUpTo(jobs, i, guard.finished)
    {
      WalkOfOne(g, jobs[i].name);
      v := guard.Visit(jobs[i].name, []);
      if v.Cycle? {
        return v, guard.finished;
      }
    }
    return Fine, guard.finished;
  }

  /** Finished names are listed once, each after its dependencies. */
  ghost predicate Complete(g: Graph, finished: seq<string>) {
    && (forall i, j :: 0 <= i < j < |finished| ==> finished[i] != finished[j])
    && DependenciesFirst(g, finished)
  }

  ghost predicate FinishedUpTo(jobs: seq<Job>, n: nat, finished: seq<string>) {
    n <= |jobs| && forall k :: 0 <= k < n ==> jobs[k].name in finished
  }

  lemma {:induction false} WalkOfOne(g: Graph, name: string)
    requires name in g
    ensures IsWalk(g, [] + [name])
  {
  }

  lemma {:induction false} AllFinished(jobs: seq<Job>, finished: seq<string>)
    requires Complete(ByName(jobs), finished) && FinishedUpTo(jobs, |jobs|, finished)
    ensures !HasCycle(ByName(jobs))
  {
    OrderedMeansAcyclic(ByName(jobs), finished);
  }
}
