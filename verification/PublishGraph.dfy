/** The dependency graph of a publish run: who names whom, walks along those names, and cycles. */
module PublishGraph {

  /** Job name -> the names in its `dependsOn`. An edge counts only when its target is a known job. */
  type Graph = map<string, seq<string>>

  predicate Edge(g: Graph, a: string, b: string) {
    a in g && b in g && b in g[a]
  }

  /** A nonempty chain of names, each depending on the next one. */
  ghost predicate IsWalk(g: Graph, p: seq<string>) {
    && p != []
    && (forall i :: 0 <= i < |p| ==> p[i] in g)
    && (forall i :: 0 < i < |p| ==> Edge(g, p[i - 1], p[i]))
  }

  /** A walk that comes back to where it started; a self-dependency is the shortest one. */
  ghost predicate IsCycle(g: Graph, p: seq<string>) {
    IsWalk(g, p) && |p| >= 2 && p[0] == p[|p| - 1]
  }

  ghost predicate HasCycle(g: Graph) {
    exists p :: IsCycle(g, p)
  }

  /** `order` lists names so that every known dependency of a listed name is listed strictly earlier. */
  ghost predicate DependenciesFirst(g: Graph, order: seq<string>) {
    forall i, b {:trigger Edge(g, order[i], b)} :: 0 <= i < |order| && Edge(g, order[i], b) ==> b in order[..i]
  }

  /** A walk that leaves a listed name moves to strictly smaller positions, so it cannot return. */
  lemma {:induction false} WalkDescends(g: Graph, order: seq<string>, p: seq<string>, i: nat) returns (k: nat)
    requires DependenciesFirst(g, order) && IsWalk(g, p) && i < |order| && order[i] == p[0]
    ensures k < |order| && order[k] == p[|p| - 1] && k <= i
    ensures |p| >= 2 ==> p[|p| - 1] in order[..i]
    decreases |p|
  {
    if |p| == 1 {
      k := i;
    } else {
      assert Edge(g, p[0], p[1]);
      var j :| 0 <= j < i && order[j] == p[1];
      var rest := p[1..];
      assert forall m :: 0 < m < |rest| ==> rest[m - 1] == p[m] && rest[m] == p[m + 1];
      k := WalkDescends(g, order, rest, j);
    }
  }

  /** Listing every known name with its dependencies first (and no repeats) rules out cycles. */
  lemma {:induction false} OrderedMeansAcyclic(g: Graph, order: seq<string>)
    requires DependenciesFirst(g, order)
    requires forall n :: n in g ==> n in order
    requires forall i, j :: 0 <= i < j < |order| ==> order[i] != order[j]
    ensures !HasCycle(g)
  {
    forall p | IsCycle(g, p) ensures false {
      assert p[0] in g;
      var i :| 0 <= i < |order| && order[i] == p[0];
      var _ := WalkDescends(g, order, p, i);
    }
  }

  /** From a walk that revisits a name one can cut out a cycle. */
  lemma {:induction false} CutCycle(g: Graph, p: seq<string>, i: nat, j: nat)
    requires IsWalk(g, p) && i < j < |p| && p[i] == p[j]
    ensures HasCycle(g)
  {
    var c := p[i..j + 1];
    forall m | 0 < m < |c| ensures Edge(g, c[m - 1], c[m]) {
      assert Edge(g, p[i + m - 1], p[i + m]);
    }
    assert IsCycle(g, c);
  }

  lemma {:induction false} ExtendWalk(g: Graph, p: seq<string>, b: string)
    requires IsWalk(g, p) && Edge(g, p[|p| - 1], b)
    ensures IsWalk(g, p + [b])
  {
    var w := p + [b];
    forall m | 0 < m < |w| ensures Edge(g, w[m - 1], w[m]) {
      if m < |p| { assert Edge(g, p[m - 1], p[m]); }
    }
  }

  /** Finishing a name whose known dependencies are all listed keeps the listing dependency-first. */
  lemma {:induction false} AppendFinished(g: Graph, order: seq<string>, n: string)
    requires DependenciesFirst(g, order)
    requires forall b :: Edge(g, n, b) ==> b in order
    ensures DependenciesFirst(g, order + [n])
  {
    var more := order + [n];
    forall i, b | 0 <= i < |more| && Edge(g, more[i], b) ensures b in more[..i] {
      if i < |order| {
        assert Edge(g, order[i], b) && more[..i] == order[..i];
      } else {
        assert more[..i] == order;
      }
    }
  }
}
