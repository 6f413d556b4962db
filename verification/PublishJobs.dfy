/** Publish jobs as the runner sees them: names, prerequisites and what their own work will do. */
module PublishJobs {
  import opened PublishGraph

  /**
   * What `pack` does. `Plain` never asks for a pack lock: no lock key, a dry run, or a failure before the lock.
   * `Locked` packs inside the section of `key`, which may throw, and then reads the tarball back, which may throw.
   */
  datatype Pack =
    | NoPack
    | Plain(throws: bool)
    | Locked(key: string, sectionThrows: bool, tailThrows: bool)

  datatype Job = Job(name: string, dependsOn: seq<string>, pack: Pack, publishThrows: bool)

  /** `new Map(jobs.map(job => [job.name, ...]))`: of two jobs with one name the later one is kept. */
  function ByName(jobs: seq<Job>): (g: Graph)
    ensures forall n :: n in g <==> exists i :: 0 <= i < |jobs| && jobs[i].name == n
  {
    if jobs == [] then map[]
    else
      var last := |jobs| - 1;
      assert forall i :: 0 <= i < |jobs| ==> i == last || jobs[i] == jobs[..last][i];
      ByName(jobs[..last])[jobs[last].name := jobs[last].dependsOn]
  }

  ghost predicate DistinctNames(jobs: seq<Job>) {
    forall i, j :: 0 <= i < j < |jobs| ==> jobs[i].name != jobs[j].name
  }

  lemma {:induction false} ByNameLooksUp(jobs: seq<Job>, i: nat)
    requires DistinctNames(jobs) && i < |jobs|
    ensures jobs[i].name in ByName(jobs) && ByName(jobs)[jobs[i].name] == jobs[i].dependsOn
  {
    if i < |jobs| - 1 {
      ByNameLooksUp(jobs[..|jobs| - 1], i);
    }
  }

  /** Job `k` is an in-set prerequisite of job `i`: named by it, known, and not the job itself. */
  predicate Needs(jobs: seq<Job>, i: nat, k: nat) {
    i < |jobs| && k < |jobs| && jobs[k].name != jobs[i].name && jobs[k].name in jobs[i].dependsOn
  }

  predicate PackThrows(pack: Pack) {
    match pack
    case NoPack => false
    case Plain(throws) => throws
    case Locked(_, sectionThrows, tailThrows) => sectionThrows || tailThrows
  }

  /** The job's own pack or publish throws. */
  predicate OwnWorkThrows(job: Job) {
    PackThrows(job.pack) || job.publishThrows
  }

  /** A chain of jobs, each needing the next. */
  ghost predicate NeedsChain(jobs: seq<Job>, p: seq<nat>) {
    && p != []
    && (forall i :: 0 <= i < |p| ==> p[i] < |jobs|)
    && (forall i :: 0 < i < |p| ==> Needs(jobs, p[i - 1], p[i]))
  }

  /** A job fails in the end iff its own work throws or it transitively depends on a job whose own work throws. */
  ghost predicate Doomed(jobs: seq<Job>, i: nat) {
    exists p :: NeedsChain(jobs, p) && p[0] == i && OwnWorkThrows(jobs[p[|p| - 1]])
  }

  lemma {:induction false} OwnFailureDooms(jobs: seq<Job>, i: nat)
    requires i < |jobs| && OwnWorkThrows(jobs[i])
    ensures Doomed(jobs, i)
  {
    assert NeedsChain(jobs, [i]);
  }

  lemma {:induction false} PrerequisiteDooms(jobs: seq<Job>, i: nat, k: nat)
    requires Needs(jobs, i, k) && Doomed(jobs, k)
    ensures Doomed(jobs, i)
  {
    var p :| NeedsChain(jobs, p) && p[0] == k && OwnWorkThrows(jobs[p[|p| - 1]]);
    var q := [i] + p;
    forall m | 0 < m < |q| ensures Needs(jobs, q[m - 1], q[m]) {
      if m > 1 { assert Needs(jobs, p[m - 2], p[m - 1]); }
    }
    assert NeedsChain(jobs, q);
  }

  /** Following prerequisites never leaves a set that is closed under them. */
  lemma {:induction false} ChainStaysInside(jobs: seq<Job>, p: seq<nat>, inside: set<nat>)
    requires NeedsChain(jobs, p) && p[0] in inside
    requires forall i, k :: i in inside && Needs(jobs, i, k) ==> k in inside
    ensures p[|p| - 1] in inside
    decreases |p|
  {
    if |p| > 1 {
      assert Needs(jobs, p[0], p[1]);
      var rest := p[1..];
      forall m | 0 < m < |rest| ensures Needs(jobs, rest[m - 1], rest[m]) {
        assert Needs(jobs, p[m], p[m + 1]);
      }
      ChainStaysInside(jobs, rest, inside);
    }
  }

  /** Everyone in the set needs a member of it. */
  ghost predicate Stuck(jobs: seq<Job>, stuck: set<nat>) {
    stuck != {} && forall i {:trigger NeedsMember(jobs, i, stuck)} :: i in stuck ==> NeedsMember(jobs, i, stuck)
  }

  ghost predicate NeedsMember(jobs: seq<Job>, i: nat, stuck: set<nat>) {
    exists k :: k in stuck && Needs(jobs, i, k)
  }

  /** Jobs that only wait for each other contain a dependency cycle. */
  lemma {:induction false} StuckSetHasCycle(jobs: seq<Job>, stuck: set<nat>)
    requires DistinctNames(jobs) && Stuck(jobs, stuck)
    ensures HasCycle(ByName(jobs))
  {
    var p := StuckWalk(jobs, stuck, |stuck|);
    var i, j := Pigeonhole(p, stuck);
    var names := NamesWalk(jobs, p);
    CutCycle(ByName(jobs), names, i, j);
  }

  lemma {:induction false} NextStuck(jobs: seq<Job>, stuck: set<nat>, i: nat) returns (k: nat)
    requires Stuck(jobs, stuck) && i in stuck
    ensures k in stuck && Needs(jobs, i, k)
  {
    assert NeedsMember(jobs, i, stuck);
    k :| k in stuck && Needs(jobs, i, k);
  }

  lemma {:induction false} ExtendChain(jobs: seq<Job>, p: seq<nat>, k: nat)
    requires NeedsChain(jobs, p) && Needs(jobs, p[|p| - 1], k)
    ensures NeedsChain(jobs, p + [k])
  {
    var q := p + [k];
    forall m | 0 < m < |q| ensures Needs(jobs, q[m - 1], q[m]) {
      if m < |p| { assert Needs(jobs, p[m - 1], p[m]); }
    }
  }

  lemma {:induction false} StuckWalk(jobs: seq<Job>, stuck: set<nat>, n: nat) returns (p: seq<nat>)
    requires Stuck(jobs, stuck)
    ensures |p| == n + 1 && NeedsChain(jobs, p) && forall i :: 0 <= i < |p| ==> p[i] in stuck
  {
    if n == 0 {
      var i :| i in stuck;
      assert NeedsMember(jobs, i, stuck);
      p := [i];
    } else {
      p := StuckWalk(jobs, stuck, n - 1);
      var k := NextStuck(jobs, stuck, p[|p| - 1]);
      ExtendChain(jobs, p, k);
      p := p + [k];
    }
  }

  lemma {:induction false} Pigeonhole(p: seq<nat>, s: set<nat>) returns (i: nat, j: nat)
    requires |p| > |s| && forall m :: 0 <= m < |p| ==> p[m] in s
    ensures i < j < |p| && p[i] == p[j]
    decreases |s|
  {
    var last := |p| - 1;
    if m: nat :| m < last && p[m] == p[last] {
      return m, last;
    }
    i, j := Pigeonhole(p[..last], s - {p[last]});
  }

  lemma {:induction false} NamesWalk(jobs: seq<Job>, p: seq<nat>) returns (names: seq<string>)
    requires DistinctNames(jobs) && NeedsChain(jobs, p)
    ensures IsWalk(ByName(jobs), names)
    ensures |names| == |p| && forall m :: 0 <= m < |p| ==> names[m] == jobs[p[m]].name
  {
    names := seq(|p|, m requires 0 <= m < |p| => jobs[p[m]].name);
    forall m | 0 <= m < |p| ensures names[m] in ByName(jobs) {
      ByNameLooksUp(jobs, p[m]);
    }
    forall m | 0 < m < |p| ensures Edge(ByName(jobs), names[m - 1], names[m]) {
      assert Needs(jobs, p[m - 1], p[m]);
      ByNameLooksUp(jobs, p[m - 1]);
    }
  }
}
