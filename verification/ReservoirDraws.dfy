/** Reservoir sampling counted over every outcome of the random draws: all samples are equally likely. */
module ReservoirDraws {
  import opened Collections

  type Draws = seq<nat>

  // ----- the sample as stream positions -----

  /** The positions a reservoir of `size` holds after the first `size` items and one further item per draw. */
  function Sample(size: nat, draws: Draws): (s: seq<nat>)
    ensures |s| == size
  {
    if draws == [] then seq(size, i => i)
    else
      var m := |draws| - 1;
      Store(Sample(size, draws[..m]), draws[m], size + m)
  }

  function Store(s: seq<nat>, draw: nat, position: nat): (r: seq<nat>)
    ensures |r| == |s|
  {
    if draw < |s| then s[draw := position] else s
  }

  /** The outcomes `randrange` can have: the draw for the k-th item of the stream is below k. */
  predicate Possible(size: nat, draws: Draws) {
    forall j :: 0 <= j < |draws| ==> draws[j] <= size + j
  }

  predicate Below(s: seq<nat>, n: nat) {
    forall i :: 0 <= i < |s| ==> s[i] < n
  }

  function Members(s: seq<nat>): set<nat> {
    set p: nat | p in s
  }

  lemma {:induction false} SampleIsDistinct(size: nat, draws: Draws)
    ensures Distinct(Sample(size, draws)) && Below(Sample(size, draws), size + |draws|)
    decreases |draws|
  {
    if draws != [] {
      SampleIsDistinct(size, draws[..|draws| - 1]);
    }
  }

  lemma {:induction false} DistinctSize(s: seq<nat>)
    requires Distinct(s)
    ensures |Members(s)| == |s|
    decreases |s|
  {
    if s == [] {
      assert Members(s) == {};
    } else {
      var n := |s| - 1;
      DistinctSize(s[..n]);
      assert s == s[..n] + [s[n]];
      assert Members(s) == Members(s[..n]) + {s[n]};
      assert s[n] !in s[..n];
    }
  }

  // ----- every outcome -----

  predicate Between(lo: nat, x: nat, hi: nat) {
    lo <= x < hi
  }

  function Range(lo: nat, hi: nat): set<nat> {
    set x: nat | lo <= x < hi && Between(lo, x, hi)
  }

  lemma {:induction false} RangeSize(lo: nat, hi: nat)
    requires lo <= hi
    ensures |Range(lo, hi)| == hi - lo
    decreases hi - lo
  {
    if lo < hi {
      RangeSize(lo, hi - 1);
      assert forall x: nat :: Between(lo, x, hi) <==> Between(lo, x, hi - 1) || x == hi - 1;
      assert Range(lo, hi) == Range(lo, hi - 1) + {hi - 1};
    } else {
      assert Range(lo, hi) == {};
    }
  }

  /** Every possible sequence of `m` draws. */
  function AllDraws(size: nat, m: nat): set<Draws> {
    if m == 0 then {[]} else Extend(AllDraws(size, m - 1), (a: Draws) => Range(0, size + m))
  }

  /** Each sequence followed by each of its choices. */
  function Extend(all: set<Draws>, choices: Draws -> set<nat>): set<Draws> {
    set a, d: nat | a in all && d in choices(a) :: a + [d]
  }

  lemma {:induction false} InExtend(all: set<Draws>, choices: Draws -> set<nat>, b: Draws)
    ensures b in Extend(all, choices) <==> b != [] && b[..|b| - 1] in all && b[|b| - 1] in choices(b[..|b| - 1])
  {
    if b != [] {
      var m := |b| - 1;
      assert b == b[..m] + [b[m]];
    }
    if b in Extend(all, choices) {
      var a: Draws, d: nat :| a in all && d in choices(a) && b == a + [d];
      assert b[..|b| - 1] == a;
    }
  }

  lemma {:induction false} InAllDraws(size: nat, m: nat, b: Draws)
    ensures b in AllDraws(size, m) <==> |b| == m && Possible(size, b)
    decreases m
  {
    if m > 0 {
      InExtend(AllDraws(size, m - 1), (a: Draws) => Range(0, size + m), b);
      if b != [] {
        InAllDraws(size, m - 1, b[..|b| - 1]);
        assert b == b[..|b| - 1] + [b[|b| - 1]];
      }
    }
  }

  lemma {:induction false} ExtendOneSize(a: Draws, ds: set<nat>, choices: Draws -> set<nat>)
    requires choices(a) == ds
    ensures |Extend({a}, choices)| == |ds|
  {
    var e := Extend({a}, choices);
    forall b: Draws ensures b in e <==> IsExtension(a, ds, b) {
      InExtend({a}, choices, b);
    }
    OneEach(a, ds, e);
  }

  predicate IsExtension(a: Draws, ds: set<nat>, b: Draws) {
    b != [] && b[..|b| - 1] == a && b[|b| - 1] in ds
  }

  lemma {:induction false} OneExtension(a: Draws, d: nat, b: Draws)
    ensures b == a + [d] <==> IsExtension(a, {d}, b)
  {
    if b != [] {
      assert b == b[..|b| - 1] + [b[|b| - 1]];
    }
  }

  lemma {:induction false} OneEach(a: Draws, ds: set<nat>, e: set<Draws>)
    requires forall b: Draws :: b in e <==> IsExtension(a, ds, b)
    ensures |e| == |ds|
    decreases |ds|
  {
    if |ds| == 0 {
      assert e == {};
    } else {
      var d :| d in ds;
      OneExtension(a, d, a + [d]);
      forall b: Draws ensures b in e - {a + [d]} <==> IsExtension(a, ds - {d}, b) {
        OneExtension(a, d, b);
      }
      OneEach(a, ds - {d}, e - {a + [d]});
    }
  }

  lemma {:induction false} ExtendSplit(all: set<Draws>, choices: Draws -> set<nat>, a: Draws)
    requires a in all
    ensures Extend(all, choices) == Extend(all - {a}, choices) + Extend({a}, choices)
    ensures Extend(all - {a}, choices) !! Extend({a}, choices)
  {
    forall b: Draws ensures (b in Extend(all, choices) <==> b in Extend(all - {a}, choices) || b in Extend({a}, choices))
                         && !(b in Extend(all - {a}, choices) && b in Extend({a}, choices))
    {
      InExtend(all, choices, b);
      InExtend(all - {a}, choices, b);
      InExtend({a}, choices, b);
    }
  }

  /** With `c` choices everywhere there are `c` times as many sequences. */
  lemma {:induction false} ExtendSize(all: set<Draws>, choices: Draws -> set<nat>, c: nat)
    requires forall a: Draws :: a in all ==> |choices(a)| == c
    ensures |Extend(all, choices)| == |all| * c
    decreases |all|
  {
    if |all| == 0 {
      assert Extend(all, choices) == {};
    } else {
      var a: Draws :| a in all;
      ExtendSize(all - {a}, choices, c);
      ExtendSizeNext(all, choices, a);
      OneMore(|all| - 1, c);
    }
  }

  lemma {:induction false} ExtendSizeNext(all: set<Draws>, choices: Draws -> set<nat>, a: Draws)
    requires a in all
    ensures |Extend(all, choices)| == |Extend(all - {a}, choices)| + |choices(a)| && |all - {a}| == |all| - 1
  {
    ExtendOneSize(a, choices(a), choices);
    ExtendSplit(all, choices, a);
    DisjointSize(Extend(all - {a}, choices), Extend({a}, choices));
  }

  lemma {:induction false} OneMore(k: nat, c: nat)
    ensures k * c + c == (k + 1) * c
  {
  }

  lemma {:induction false} DisjointSize(x: set<Draws>, y: set<Draws>)
    requires x !! y
    ensures |x + y| == |x| + |y|
  {
  }
}
