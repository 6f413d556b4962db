/** The union-find of the clone detector: unions keep exactly the chains of links, however often lookups compress. */
module CloneUnionFind {

  type Links = set<(nat, nat)>

  // ----- chains of links -----

  predicate Joined(links: Links, x: nat, y: nat) {
    (x, y) in links || (y, x) in links
  }

  ghost predicate IsChain(links: Links, p: seq<nat>) {
    p != [] && forall i {:trigger Joined(links, p[i - 1], p[i])} :: 0 < i < |p| ==> Joined(links, p[i - 1], p[i])
  }

  /** A chain of links, in either direction, leads from `x` to `y`. */
  ghost predicate Linked(links: Links, x: nat, y: nat) {
    exists p :: IsChain(links, p) && p[0] == x && p[|p| - 1] == y
  }

  lemma {:induction false} LinkedRefl(links: Links, x: nat)
    ensures Linked(links, x, x)
  {
    assert IsChain(links, [x]);
  }

  lemma {:induction false} LinkedOne(links: Links, x: nat, y: nat)
    requires Joined(links, x, y)
    ensures Linked(links, x, y)
  {
    var p := [x, y];
    assert IsChain(links, p) && p[0] == x && p[|p| - 1] == y;
  }

  lemma {:induction false} LinkedTrans(links: Links, x: nat, y: nat, z: nat)
    requires Linked(links, x, y) && Linked(links, y, z)
    ensures Linked(links, x, z)
  {
    var p :| IsChain(links, p) && p[0] == x && p[|p| - 1] == y;
    var q :| IsChain(links, q) && q[0] == y && q[|q| - 1] == z;
    var r := p + q[1..];
    forall i | 0 < i < |r| ensures Joined(links, r[i - 1], r[i]) {
      if i < |p| {
        assert Joined(links, p[i - 1], p[i]);
      } else {
        var k := i - |p| + 1;
        assert r[i] == q[k] && r[i - 1] == q[k - 1] && Joined(links, q[k - 1], q[k]);
      }
    }
    assert IsChain(links, r) && r[0] == x && r[|r| - 1] == z;
  }

  lemma {:induction false} LinkedSym(links: Links, x: nat, y: nat)
    requires Linked(links, x, y)
    ensures Linked(links, y, x)
  {
    var p :| IsChain(links, p) && p[0] == x && p[|p| - 1] == y;
    var r := seq(|p|, i requires 0 <= i < |p| => p[|p| - 1 - i]);
    forall i | 0 < i < |r| ensures Joined(links, r[i - 1], r[i]) {
      var k := |p| - i;
      assert r[i] == p[k - 1] && r[i - 1] == p[k] && Joined(links, p[k - 1], p[k]);
    }
    assert IsChain(links, r) && r[0] == y && r[|r| - 1] == x;
  }

  /** Chains survive when every link can still be bridged. */
  lemma {:induction false} LinkedVia(links: Links, more: Links, x: nat, y: nat)
    requires Linked(links, x, y)
    requires forall a: nat, b: nat :: (a, b) in links ==> Linked(more, a, b)
    ensures Linked(more, x, y)
  {
    var p :| IsChain(links, p) && p[0] == x && p[|p| - 1] == y;
    ChainVia(links, more, p);
  }

  lemma {:induction false} ChainVia(links: Links, more: Links, p: seq<nat>)
    requires IsChain(links, p)
    requires forall a: nat, b: nat :: (a, b) in links ==> Linked(more, a, b)
    ensures Linked(more, p[0], p[|p| - 1])
    decreases |p|
  {
    var n := |p| - 1;
    if n == 0 {
      LinkedRefl(more, p[0]);
    } else {
      ChainVia(links, more, p[..n]);
      assert Joined(links, p[n - 1], p[n]);
      if (p[n], p[n - 1]) in links {
        LinkedSym(more, p[n], p[n - 1]);
      }
      LinkedTrans(more, p[0], p[n - 1], p[n]);
    }
  }

  lemma {:induction false} LinkedMore(links: Links, more: Links, x: nat, y: nat)
    requires Linked(links, x, y) && links <= more
    ensures Linked(more, x, y)
  {
    forall a: nat, b: nat | (a, b) in links ensures Linked(more, a, b) {
      LinkedOne(more, a, b);
    }
    LinkedVia(links, more, x, y);
  }

  // ----- parent pointers -----

  type Parents = map<nat, nat>

  function Level(levels: map<nat, nat>, x: nat): nat {
    if x in levels then levels[x] else 0
  }

  /** Every pointer climbs, and nothing is above `top`: the pointers contain no cycle. */
  ghost predicate Climbs(parent: Parents, levels: map<nat, nat>, top: nat) {
    && (forall x :: Level(levels, x) <= top)
    && (forall x :: x in parent ==> Level(levels, x) < Level(levels, parent[x]))
  }

  ghost function Root(parent: Parents, levels: map<nat, nat>, top: nat, x: nat): (r: nat)
    requires Climbs(parent, levels, top)
    ensures r !in parent && Level(levels, x) <= Level(levels, r) && (x !in parent ==> r == x)
    ensures x in parent ==> Level(levels, x) < Level(levels, r)
    decreases top - Level(levels, x)
  {
    if x in parent then Root(parent, levels, top, parent[x]) else x
  }

  /** Pointing a node straight at its root changes nobody's root. */
  lemma {:induction false} ShortcutKeepsRoots(parent: Parents, levels: map<nat, nat>, top: nat, x: nat, y: nat)
    requires Climbs(parent, levels, top) && x in parent
    ensures var p2 := parent[x := Root(parent, levels, top, x)];
      Climbs(p2, levels, top) && Root(p2, levels, top, y) == Root(parent, levels, top, y)
    decreases top - Level(levels, y)
  {
    if y in parent && y != x {
      ShortcutKeepsRoots(parent, levels, top, x, parent[y]);
    }
  }

  /** Hanging one root below another merges exactly their two classes. */
  lemma {:induction false} LinkRoots(parent: Parents, levels: map<nat, nat>, top: nat, a: nat, b: nat, y: nat)
    requires Climbs(parent, levels, top) && a !in parent && b !in parent && a != b
    ensures var p2, l2, t2 := parent[a := b], Raise(levels, a, b), 2 * top + 1;
      && Climbs(p2, l2, t2)
      && Root(p2, l2, t2, y) == (var r := Root(parent, levels, top, y); if r == a then b else r)
    decreases top - Level(levels, y)
  {
    RaisedClimbs(parent, levels, top, a, b);
    if y in parent {
      LinkRoots(parent, levels, top, a, b, parent[y]);
    } else if y == a {
      assert b !in parent[a := b];
    }
  }

  function Raise(levels: map<nat, nat>, a: nat, b: nat): map<nat, nat> {
    levels[b := Level(levels, a) + Level(levels, b) + 1]
  }

  lemma {:induction false} RaisedClimbs(parent: Parents, levels: map<nat, nat>, top: nat, a: nat, b: nat)
    requires Climbs(parent, levels, top) && a !in parent && b !in parent && a != b
    ensures Climbs(parent[a := b], Raise(levels, a, b), 2 * top + 1)
  {
    forall x ensures Level(Raise(levels, a, b), x) <= 2 * top + 1 {
      assert Level(levels, x) <= top && Level(levels, a) <= top && Level(levels, b) <= top;
    }
  }

  /** Every link stays inside one class, so chains do too. */
  ghost predicate Respects(links: Links, parent: Parents, levels: map<nat, nat>, top: nat)
    requires Climbs(parent, levels, top)
  {
    forall x: nat, y: nat :: (x, y) in links ==> Root(parent, levels, top, x) == Root(parent, levels, top, y)
  }

  lemma {:induction false} ChainSameRoot(links: Links, parent: Parents, levels: map<nat, nat>, top: nat, p: seq<nat>)
    requires Climbs(parent, levels, top) && Respects(links, parent, levels, top) && IsChain(links, p)
    ensures Root(parent, levels, top, p[0]) == Root(parent, levels, top, p[|p| - 1])
    decreases |p|
  {
    var n := |p| - 1;
    if n > 0 {
      ChainSameRoot(links, parent, levels, top, p[..n]);
      assert Joined(links, p[n - 1], p[n]);
    }
  }

  /** The classes are exactly the chains. */
  ghost predicate Exact(links: Links, parent: Parents, levels: map<nat, nat>, top: nat)
    requires Climbs(parent, levels, top)
  {
    forall x: nat, y: nat {:trigger Linked(links, x, y)} ::
      Root(parent, levels, top, x) == Root(parent, levels, top, y) <==> Linked(links, x, y)
  }

  lemma {:induction false} NothingLinked()
    ensures Climbs(map[], map[], 0) && Exact({}, map[], map[], 0)
  {
    assert Respects({}, map[], map[], 0);
    forall x: nat, y: nat ensures Root(map[], map[], 0, x) == Root(map[], map[], 0, y) <==> Linked({}, x, y) {
      LinkedRefl({}, x);
      if Linked({}, x, y) {
        var p :| IsChain({}, p) && p[0] == x && p[|p| - 1] == y;
        ChainSameRoot({}, map[], map[], 0, p);
      }
    }
  }

  /** The second forest is the first with the class of `a` moved into that of `b`. */
  ghost predicate Merged(parent: Parents, levels: map<nat, nat>, top: nat, a: nat, b: nat,
                         p2: Parents, l2: map<nat, nat>, t2: nat)
    requires Climbs(parent, levels, top) && Climbs(p2, l2, t2)
  {
    forall y: nat :: Root(p2, l2, t2, y) == Redirect(Root(parent, levels, top, y), Root(parent, levels, top, a), Root(parent, levels, top, b))
  }

  function Redirect(r: nat, ra: nat, rb: nat): nat {
    if r == ra then rb else r
  }

  lemma {:induction false} HangingMerges(parent: Parents, levels: map<nat, nat>, top: nat, a: nat, b: nat, ra: nat, rb: nat)
    requires Climbs(parent, levels, top) && ra == Root(parent, levels, top, a) && rb == Root(parent, levels, top, b) && ra != rb
    ensures Climbs(parent[ra := rb], Raise(levels, ra, rb), 2 * top + 1)
    ensures Merged(parent, levels, top, a, b, parent[ra := rb], Raise(levels, ra, rb), 2 * top + 1)
  {
    RaisedClimbs(parent, levels, top, ra, rb);
    forall y: nat ensures Root(parent[ra := rb], Raise(levels, ra, rb), 2 * top + 1, y)
                       == Redirect(Root(parent, levels, top, y), ra, rb) {
      LinkRoots(parent, levels, top, ra, rb, y);
    }
  }

  /** Uniting two numbers of one class adds no chain; uniting two classes adds exactly the chains through the new pair. */
  lemma {:induction false} UniteExact(links: Links, parent: Parents, levels: map<nat, nat>, top: nat, a: nat, b: nat,
                   p2: Parents, l2: map<nat, nat>, t2: nat)
    requires Climbs(parent, levels, top) && Exact(links, parent, levels, top) && Climbs(p2, l2, t2)
    requires Merged(parent, levels, top, a, b, p2, l2, t2)
    ensures Exact(links + {(a, b)}, p2, l2, t2)
  {
    var more := links + {(a, b)};
    forall x: nat, y: nat | (x, y) in links ensures Root(p2, l2, t2, x) == Root(p2, l2, t2, y) {
      LinkedOne(links, x, y);
    }
    assert Respects(more, p2, l2, t2);
    forall x: nat, y: nat ensures Root(p2, l2, t2, x) == Root(p2, l2, t2, y) <==> Linked(more, x, y) {
      if Linked(more, x, y) {
        var p :| IsChain(more, p) && p[0] == x && p[|p| - 1] == y;
        ChainSameRoot(more, p2, l2, t2, p);
      }
      if Root(p2, l2, t2, x) == Root(p2, l2, t2, y) {
        if Root(parent, levels, top, x) != Root(parent, levels, top, y) {
          ReachesB(links, parent, levels, top, a, b, x);
          ReachesB(links, parent, levels, top, a, b, y);
        }
        Bridge(links, parent, levels, top, a, b, x, y);
      }
    }
  }

  lemma {:induction false} ReachesB(links: Links, parent: Parents, levels: map<nat, nat>, top: nat, a: nat, b: nat, x: nat)
    requires Climbs(parent, levels, top) && Exact(links, parent, levels, top)
    requires Root(parent, levels, top, x) in {Root(parent, levels, top, a), Root(parent, levels, top, b)}
    ensures Linked(links + {(a, b)}, x, b)
  {
    var more := links + {(a, b)};
    if Root(parent, levels, top, x) == Root(parent, levels, top, b) {
      LinkedMore(links, more, x, b);
    } else {
      LinkedMore(links, more, x, a);
      LinkedOne(more, a, b);
      LinkedTrans(more, x, a, b);
    }
  }

  lemma {:induction false} Bridge(links: Links, parent: Parents, levels: map<nat, nat>, top: nat, a: nat, b: nat, x: nat, y: nat)
    requires Climbs(parent, levels, top) && Exact(links, parent, levels, top)
    requires (Linked(links + {(a, b)}, x, b) && Linked(links + {(a, b)}, y, b))
          || Root(parent, levels, top, x) == Root(parent, levels, top, y)
    ensures Linked(links + {(a, b)}, x, y)
  {
    var more := links + {(a, b)};
    if Root(parent, levels, top, x) == Root(parent, levels, top, y) {
      LinkedMore(links, more, x, y);
    } else {
      LinkedSym(more, y, b);
      LinkedTrans(more, x, b, y);
    }
  }

  lemma {:induction false} SameRootAt(parent: Parents, p2: Parents, levels: map<nat, nat>, top: nat, x: nat)
    requires Climbs(parent, levels, top) && Climbs(p2, levels, top) && SameRoots(parent, p2, levels, top)
    ensures Root(p2, levels, top, x) == Root(parent, levels, top, x)
  {
  }

  lemma {:induction false} HangingExact(links: Links, parent: Parents, levels: map<nat, nat>, top: nat, a: nat, b: nat, ra: nat, rb: nat)
    requires Climbs(parent, levels, top) && Exact(links, parent, levels, top)
    requires ra == Root(parent, levels, top, a) && rb == Root(parent, levels, top, b) && ra != rb
    ensures Climbs(parent[ra := rb], Raise(levels, ra, rb), 2 * top + 1)
    ensures Exact(links + {(a, b)}, parent[ra := rb], Raise(levels, ra, rb), 2 * top + 1)
  {
    HangingMerges(parent, levels, top, a, b, ra, rb);
    UniteExact(links, parent, levels, top, a, b, parent[ra := rb], Raise(levels, ra, rb), 2 * top + 1);
  }

  lemma {:induction false} SameRootExact(links: Links, parent: Parents, levels: map<nat, nat>, top: nat, a: nat, b: nat)
    requires Climbs(parent, levels, top) && Exact(links, parent, levels, top)
    requires Root(parent, levels, top, a) == Root(parent, levels, top, b)
    ensures Exact(links + {(a, b)}, parent, levels, top)
  {
    assert Merged(parent, levels, top, a, b, parent, levels, top);
    UniteExact(links, parent, levels, top, a, b, parent, levels, top);
  }

  ghost predicate SameRoots(parent: Parents, p2: Parents, levels: map<nat, nat>, top: nat)
    requires Climbs(parent, levels, top) && Climbs(p2, levels, top)
  {
    forall y: nat :: Root(p2, levels, top, y) == Root(parent, levels, top, y)
  }

  class UnionFind {
    var parent: Parents
    ghost var levels: map<nat, nat>
    ghost var top: nat
    // All pairs ever united.
    ghost var links: Links

    constructor ()
      ensures Valid() && links == {}
    {
      parent := map[];
      levels, top, links := map[], 0, {};
      NothingLinked();
    }

    ghost predicate Climbing()
      reads this
    {
      Climbs(parent, levels, top)
    }

    /** Two numbers have the same representative exactly when a chain of united pairs joins them. */
    ghost predicate Valid()
      reads this
    {
      Climbing() && Exact(links, parent, levels, top)
    }

    /** Looks a representative up, compressing the path on the way; nobody's representative changes. */
    method Find(x: nat) returns (r: nat)
      requires Climbing()
      modifies this`parent
      ensures Climbing() && r == Root(old(parent), levels, top, x) && parent.Keys == old(parent.Keys)
      ensures SameRoots(old(parent), parent, levels, top)
      decreases top - Level(levels, x)
    {
      r := if x in parent then parent[x] else x;
      if r != x {
        r := Find(r);
        assert r == Root(parent, levels, top, x);
        forall y: nat ensures Climbs(parent[x := r], levels, top)
          && Root(parent[x := r], levels, top, y) == Root(parent, levels, top, y)
        {
          ShortcutKeepsRoots(parent, levels, top, x, y);
        }
        parent := parent[x := r];
      }
    }

    method Lookup(x: nat) returns (r: nat)
      requires Valid()
      modifies this`parent
      ensures Valid() && r == Root(parent, levels, top, x) && SameRoots(old(parent), parent, levels, top)
    {
      r := Find(x);
    }

    method Union(a: nat, b: nat)
      requires Valid()
      modifies this
      ensures Valid() && links == old(links) + {(a, b)}
    {
      var ra := Lookup(a);
      ghost var before := parent;
      var rb := Lookup(b);
      SameRootAt(before, parent, levels, top, a);
      Hang(a, b, ra, rb);
    }

    /** Two numbers that already share a representative count as united, too. */
    ghost method Record(a: nat, b: nat)
      requires Valid() && Root(parent, levels, top, a) == Root(parent, levels, top, b)
      modifies this`links
      ensures Valid() && links == old(links) + {(a, b)}
    {
      SameRootExact(links, parent, levels, top, a, b);
      links := links + {(a, b)};
    }

    /** Hangs one representative below the other, unless they are one. */
    method Hang(ghost a: nat, ghost b: nat, ra: nat, rb: nat)
      requires Valid() && ra == Root(parent, levels, top, a) && rb == Root(parent, levels, top, b)
      modifies this
      ensures Valid() && links == old(links) + {(a, b)}
    {
      if ra == rb {
        Record(a, b);
        return;
      }
      HangingExact(links, parent, levels, top, a, b, ra, rb);
      Install(parent[ra := rb], Raise(levels, ra, rb), 2 * top + 1, links + {(a, b)});
    }

    method Install(hung: Parents, ghost raised: map<nat, nat>, ghost height: nat, ghost more: Links)
      requires Climbs(hung, raised, height) && Exact(more, hung, raised, height)
      modifies this
      ensures Valid() && links == more
    {
      parent, levels, top, links := hung, raised, height, more;
    }
  }
}
