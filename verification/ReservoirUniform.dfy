/** Uniformity of the reservoir: every subset of the stream, and so every item, is kept equally often. */
module ReservoirUniform {
  import opened Collections
  import opened ReservoirDraws

  // ----- one more item -----

  lemma {:induction false} StoreMembers(s: seq<nat>, draw: nat, position: nat)
    requires Distinct(s) && draw < |s|
    ensures Members(Store(s, draw, position)) == Members(s) - {s[draw]} + {position}
  {
    var r := Store(s, draw, position);
    forall x: nat ensures x in r <==> x == position || (x in s && x != s[draw]) {
      if x == position {
        assert r[draw] == x;
      } else if x in s && x != s[draw] {
        var i :| 0 <= i < |s| && s[i] == x;
        assert r[i] == x;
      }
    }
  }

  lemma {:induction false} SampleStep(size: nat, a: Draws, d: nat)
    ensures Sample(size, a + [d]) == Store(Sample(size, a), d, size + |a|)
  {
    assert (a + [d])[..|a|] == a;
  }

  lemma {:induction false} SampleMembers(size: nat, a: Draws)
    ensures |Members(Sample(size, a))| == size && Members(Sample(size, a)) <= Range(0, size + |a|)
  {
    SampleIsDistinct(size, a);
    DistinctSize(Sample(size, a));
  }

  lemma {:induction false} FullSubset(small: set<nat>, big: set<nat>)
    requires small <= big && |small| >= |big|
    ensures small == big
  {
    assert big == small + (big - small);
    assert |big| == |small| + |big - small|;
  }

  // ----- every subset equally often -----

  function Yielding(size: nat, m: nat, target: set<nat>): set<Draws> {
    set a | a in AllDraws(size, m) && Members(Sample(size, a)) == target
  }

  function Factorial(m: nat): nat {
    if m == 0 then 1 else m * Factorial(m - 1)
  }

  /** After `size + m` items, each set of `size` positions is the sample for exactly `m!` outcomes of the draws. */
  lemma {:induction false} SubsetsEquallyLikely(size: nat, m: nat, target: set<nat>)
    requires target <= Range(0, size + m) && |target| == size
    ensures |Yielding(size, m, target)| == Factorial(m)
    decreases m
  {
    if m == 0 {
      NoDraws(size, target);
    } else if size + m - 1 !in target {
      assert target <= Range(0, size + m - 1);
      SubsetsEquallyLikely(size, m - 1, target);
      NewItemUnused(size, m, target);
    } else {
      var n := size + m - 1;
      var missing := Range(0, n) - target;
      forall q: nat | q in missing ensures |Yielding(size, m - 1, target - {n} + {q})| == Factorial(m - 1) {
        Swapped(size, n, target, q);
        SubsetsEquallyLikely(size, m - 1, target - {n} + {q});
      }
      NewItemCount(size, m, target, Factorial(m - 1));
      TimesIsProduct(m, Factorial(m - 1));
    }
  }

  lemma {:induction false} Swapped(size: nat, n: nat, target: set<nat>, q: nat)
    requires target <= Range(0, n + 1) && |target| == size && n in target && q in Range(0, n) - target
    ensures target - {n} + {q} <= Range(0, n) && |target - {n} + {q}| == size
  {
  }

  /** Every completion of `base` is the sample equally often. */
  ghost predicate EachYields(size: nat, m: nat, base: set<nat>, extra: set<nat>, c: nat) {
    forall q: nat :: q in extra ==> |Yielding(size, m, base + {q})| == c
  }

  /** A sample with the newest item comes from any of the m samples that miss one other of its items. */
  lemma {:induction false} NewItemCount(size: nat, m: nat, target: set<nat>, c: nat)
    requires m > 0 && target <= Range(0, size + m) && |target| == size && size + m - 1 in target
    requires EachYields(size, m - 1, target - {size + m - 1}, Range(0, size + m - 1) - target, c)
    ensures |Yielding(size, m, target)| == Times(m, c)
  {
    var n := size + m - 1;
    var base, missing := target - {n}, Range(0, n) - target;
    calc {
      |Yielding(size, m, target)|;
    == { NewItemUsed(size, m, target); }
      |Completions(size, m - 1, base, missing)|;
    == { MissingSize(size, m, target); CompletionsSize(size, m - 1, base, missing, m, c); }
      Times(m, c);
    }
  }

  lemma {:induction false} NoDraws(size: nat, target: set<nat>)
    requires target <= Range(0, size) && |target| == size
    ensures |Yielding(size, 0, target)| == 1
  {
    RangeSize(0, size);
    FullSubset(target, Range(0, size));
    SampleMembers(size, []);
    FullSubset(Members(Sample(size, [])), Range(0, size));
    assert Yielding(size, 0, target) == {[]};
  }

  /** A sample without the newest item leaves the draw m ways to miss. */
  lemma {:induction false} NewItemUnused(size: nat, m: nat, target: set<nat>)
    requires m > 0 && size + m - 1 !in target
    ensures |Yielding(size, m, target)| == m * |Yielding(size, m - 1, target)|
  {
    var now, before := Yielding(size, m, target), Yielding(size, m - 1, target);
    forall b: Draws ensures b in now <==> b in Extend(before, Misses(size, m)) {
      UnusedOutcome(size, m, target, b);
    }
    assert now == Extend(before, Misses(size, m));
    RangeSize(size, size + m);
    ExtendSize(before, Misses(size, m), m);
  }

  function Misses(size: nat, m: nat): Draws -> set<nat> {
    (a: Draws) => Range(size, size + m)
  }

  lemma {:induction false} UnusedOutcome(size: nat, m: nat, target: set<nat>, b: Draws)
    requires m > 0 && size + m - 1 !in target
    ensures b in Yielding(size, m, target) <==> b in Extend(Yielding(size, m - 1, target), Misses(size, m))
  {
    InExtend(Yielding(size, m - 1, target), Misses(size, m), b);
    SplitOutcome(size, m, b);
    if b != [] && b[..|b| - 1] in AllDraws(size, m - 1) {
      var a, d := b[..|b| - 1], b[|b| - 1];
      assert b == a + [d];
      InAllDraws(size, m - 1, a);
      UnusedDraw(size, a, d, target);
    }
  }

  lemma {:induction false} UnusedDraw(size: nat, a: Draws, d: nat, target: set<nat>)
    requires size + |a| !in target
    ensures Members(Sample(size, a + [d])) == target <==> d >= size && Members(Sample(size, a)) == target
  {
    SampleStep(size, a, d);
    SampleIsDistinct(size, a);
    if d < size {
      StoreMembers(Sample(size, a), d, size + |a|);
    }
  }

  lemma {:induction false} SplitOutcome(size: nat, m: nat, b: Draws)
    requires m > 0
    ensures b in AllDraws(size, m) <==> b != [] && b[..|b| - 1] in AllDraws(size, m - 1) && b[|b| - 1] < size + m
  {
    InExtend(AllDraws(size, m - 1), (a: Draws) => Range(0, size + m), b);
  }

  /** The earlier outcomes whose sample is `base` and one more position from `extra`. */
  function Completions(size: nat, m: nat, base: set<nat>, extra: set<nat>): set<Draws> {
    set a | a in AllDraws(size, m) && CompletedBy(base, extra, Members(Sample(size, a)))
  }

  predicate CompletedBy(base: set<nat>, extra: set<nat>, s: set<nat>) {
    exists q :: q in extra && s == base + {q}
  }

  function Times(k: nat, c: nat): nat {
    if k == 0 then 0 else Times(k - 1, c) + c
  }

  lemma {:induction false} TimesIsProduct(k: nat, c: nat)
    ensures Times(k, c) == k * c
  {
    if k > 0 {
      TimesIsProduct(k - 1, c);
      assert (k - 1) * c + c == k * c;
    }
  }

  lemma {:induction false} CompletionsSize(size: nat, m: nat, base: set<nat>, extra: set<nat>, k: nat, c: nat)
    requires base !! extra && EachYields(size, m, base, extra, c) && |extra| == k
    ensures |Completions(size, m, base, extra)| == Times(k, c)
    decreases k
  {
    if k == 0 {
      assert Completions(size, m, base, extra) == {};
    } else {
      var q: nat :| q in extra;
      FewerYield(size, m, base, extra, q, c);
      CompletionsSize(size, m, base, extra - {q}, k - 1, c);
      OneMoreCompletion(size, m, base, extra, q);
    }
  }

  lemma {:induction false} FewerYield(size: nat, m: nat, base: set<nat>, extra: set<nat>, q: nat, c: nat)
    requires base !! extra && EachYields(size, m, base, extra, c) && q in extra
    ensures base !! extra - {q} && EachYields(size, m, base, extra - {q}, c) && |extra - {q}| == |extra| - 1
    ensures |Yielding(size, m, base + {q})| == c
  {
  }

  lemma {:induction false} OneMoreCompletion(size: nat, m: nat, base: set<nat>, extra: set<nat>, q: nat)
    requires base !! extra && q in extra
    ensures |Completions(size, m, base, extra)| == |Completions(size, m, base, extra - {q})| + |Yielding(size, m, base + {q})|
  {
    CompletionsSplit(size, m, base, extra, q);
    DisjointSize(Completions(size, m, base, extra - {q}), Yielding(size, m, base + {q}));
  }

  lemma {:induction false} CompletionsSplit(size: nat, m: nat, base: set<nat>, extra: set<nat>, q: nat)
    requires base !! extra && q in extra
    ensures Completions(size, m, base, extra) == Completions(size, m, base, extra - {q}) + Yielding(size, m, base + {q})
    ensures Completions(size, m, base, extra - {q}) !! Yielding(size, m, base + {q})
  {
    forall s: set<nat> ensures (CompletedBy(base, extra, s) <==> CompletedBy(base, extra - {q}, s) || s == base + {q})
                            && !(CompletedBy(base, extra - {q}, s) && s == base + {q})
    {
      if CompletedBy(base, extra - {q}, s) {
        var p :| p in extra - {q} && s == base + {p};
        assert p in s && p !in base + {q};
      }
    }
  }

  /** The draws that bring the sample to `target`: the slot of the one position that has to go. */
  function Slots(size: nat, target: set<nat>): Draws -> set<nat> {
    (a: Draws) => set d: nat | d < size && Sample(size, a)[d] !in target
  }

  lemma {:induction false} NewItemUsed(size: nat, m: nat, target: set<nat>)
    requires m > 0 && target <= Range(0, size + m) && |target| == size && size + m - 1 in target
    ensures var n := size + m - 1;
      |Yielding(size, m, target)| == |Completions(size, m - 1, target - {n}, Range(0, n) - target)|
  {
    var n := size + m - 1;
    var before := Completions(size, m - 1, target - {n}, Range(0, n) - target);
    var slots := Slots(size, target);
    forall b: Draws ensures b in Yielding(size, m, target) <==> b in Extend(before, slots) {
      InExtend(before, slots, b);
      SplitOutcome(size, m, b);
      if b != [] {
        var a, d := b[..|b| - 1], b[|b| - 1];
        assert b == a + [d];
        if a in AllDraws(size, m - 1) {
          LastDraw(size, m, target, a, d);
        }
      }
    }
    assert Yielding(size, m, target) == Extend(before, slots);
    forall a: Draws | a in before ensures |slots(a)| == 1 {
      InAllDraws(size, m - 1, a);
      OneSlot(size, m, target, a);
    }
    ExtendSize(before, slots, 1);
  }

  lemma {:induction false} LastDraw(size: nat, m: nat, target: set<nat>, a: Draws, d: nat)
    requires m > 0 && target <= Range(0, size + m) && |target| == size && size + m - 1 in target
    requires a in AllDraws(size, m - 1)
    ensures var n := size + m - 1;
      (d < size + m && Members(Sample(size, a + [d])) == target)
      <==> (CompletedBy(target - {n}, Range(0, n) - target, Members(Sample(size, a))) && d in Slots(size, target)(a))
  {
    InAllDraws(size, m - 1, a);
    SampleStep(size, a, d);
    SampleIsDistinct(size, a);
    SampleMembers(size, a);
    if d < size {
      LastHit(Sample(size, a), size + m - 1, target, d);
    } else {
      assert size + m - 1 !in Members(Sample(size, a));
    }
  }

  lemma {:induction false} LastHit(s: seq<nat>, n: nat, target: set<nat>, d: nat)
    requires Distinct(s) && d < |s| && Members(s) <= Range(0, n) && n in target && target <= Range(0, n + 1)
    ensures Members(Store(s, d, n)) == target
      <==> (CompletedBy(target - {n}, Range(0, n) - target, Members(s)) && s[d] !in target)
  {
    StoreMembers(s, d, n);
    assert s[d] in Members(s);
    OneOut(Members(s), s[d], n, target);
  }

  lemma {:induction false} OneOut(s: set<nat>, out: nat, n: nat, target: set<nat>)
    requires s <= Range(0, n) && out in s && n in target && target <= Range(0, n + 1)
    ensures s - {out} + {n} == target <==> (CompletedBy(target - {n}, Range(0, n) - target, s) && out !in target)
  {
    if s - {out} + {n} == target {
      assert out !in target && s == target - {n} + {out};
    }
    if CompletedBy(target - {n}, Range(0, n) - target, s) && out !in target {
      var q :| q in Range(0, n) - target && s == target - {n} + {q};
      assert out == q;
      assert s - {out} + {n} == target;
    }
  }

  lemma {:induction false} OneSlot(size: nat, m: nat, target: set<nat>, a: Draws)
    requires m > 0 && size + m - 1 in target && |a| == m - 1
    requires CompletedBy(target - {size + m - 1}, Range(0, size + m - 1) - target, Members(Sample(size, a)))
    ensures |Slots(size, target)(a)| == 1
  {
    var n := size + m - 1;
    var s := Sample(size, a);
    SampleIsDistinct(size, a);
    var q :| q in Range(0, n) - target && Members(s) == target - {n} + {q};
    assert q in Members(s);
    var d: nat :| d < size && s[d] == q;
    forall e: nat | e < size ensures s[e] !in target <==> e == d {
      assert s[e] in Members(s);
      assert e < d ==> s[e] != s[d];
      assert d < e ==> s[d] != s[e];
    }
    assert Slots(size, target)(a) == {d};
  }

  lemma {:induction false} MissingSize(size: nat, m: nat, target: set<nat>)
    requires m > 0 && target <= Range(0, size + m) && |target| == size && size + m - 1 in target
    ensures |Range(0, size + m - 1) - target| == m
  {
    var n := size + m - 1;
    RangeSize(0, n);
    var kept := target - {n};
    assert kept <= Range(0, n);
    assert Range(0, n) - target == Range(0, n) - kept;
    assert Range(0, n) == kept + (Range(0, n) - kept);
    assert |Range(0, n)| == |kept| + |Range(0, n) - kept|;
  }

  // ----- every item equally often -----

  function Keeping(size: nat, m: nat, p: nat): set<Draws> {
    set a | a in AllDraws(size, m) && p in Sample(size, a)
  }

  /** Each of the `size + m` items seen is kept for exactly `size` of every `size + m` outcomes. */
  lemma {:induction false} ItemsEquallyLikely(size: nat, m: nat, p: nat)
    requires p < size + m
    ensures |Keeping(size, m, p)| * (size + m) == size * |AllDraws(size, m)|
    decreases m
  {
    if m == 0 {
      AllKept(size, p);
    } else {
      if p == size + m - 1 {
        NewestLikely(size, m);
      } else {
        ItemsEquallyLikely(size, m - 1, p);
        OlderLikely(size, m, p);
      }
    }
  }

  lemma {:induction false} NewestLikely(size: nat, m: nat)
    requires m > 0
    ensures |Keeping(size, m, size + m - 1)| * (size + m) == size * |AllDraws(size, m)|
  {
    OutcomeCount(size, m);
    NewestKept(size, m);
    Scale(|AllDraws(size, m - 1)|, size, size + m);
  }

  lemma {:induction false} OlderLikely(size: nat, m: nat, p: nat)
    requires m > 0 && p < size + m - 1
    requires |Keeping(size, m - 1, p)| * (size + (m - 1)) == size * |AllDraws(size, m - 1)|
    ensures |Keeping(size, m, p)| * (size + m) == size * |AllDraws(size, m)|
  {
    OutcomeCount(size, m);
    OlderKept(size, m, p);
    Scale2(|Keeping(size, m - 1, p)|, size + m - 1, size, |AllDraws(size, m - 1)|, size + m);
  }

  lemma {:induction false} AllKept(size: nat, p: nat)
    requires p < size
    ensures |Keeping(size, 0, p)| == 1 && |AllDraws(size, 0)| == 1
  {
    assert Sample(size, [])[p] == p;
    assert Keeping(size, 0, p) == {[]};
  }

  lemma {:induction false} OutcomeCount(size: nat, m: nat)
    requires m > 0
    ensures |AllDraws(size, m)| == |AllDraws(size, m - 1)| * (size + m)
  {
    RangeSize(0, size + m);
    ExtendSize(AllDraws(size, m - 1), (a: Draws) => Range(0, size + m), size + m);
  }

  lemma {:induction false} Scale(all: nat, size: nat, k: nat)
    ensures all * size * k == size * (all * k)
  {
  }

  lemma {:induction false} Scale2(kept: nat, n: nat, size: nat, all: nat, k: nat)
    requires kept * n == size * all
    ensures kept * n * k == size * (all * k)
  {
  }

  lemma {:induction false} NewestEnters(size: nat, a: Draws, d: nat)
    ensures size + |a| in Sample(size, a + [d]) <==> d < size
  {
    SampleStep(size, a, d);
    SampleIsDistinct(size, a);
    if d < size {
      assert Store(Sample(size, a), d, size + |a|)[d] == size + |a|;
    }
  }

  /** The newest item enters for exactly the draws below `size`. */
  lemma {:induction false} NewestKept(size: nat, m: nat)
    requires m > 0
    ensures |Keeping(size, m, size + m - 1)| == |AllDraws(size, m - 1)| * size
  {
    var now, before := Keeping(size, m, size + m - 1), AllDraws(size, m - 1);
    forall b: Draws ensures b in now <==> b in Extend(before, Hits(size)) {
      NewestOutcome(size, m, b);
    }
    assert now == Extend(before, Hits(size));
    RangeSize(0, size);
    ExtendSize(AllDraws(size, m - 1), Hits(size), size);
  }

  function Hits(size: nat): Draws -> set<nat> {
    (a: Draws) => Range(0, size)
  }

  lemma {:induction false} NewestOutcome(size: nat, m: nat, b: Draws)
    requires m > 0
    ensures b in Keeping(size, m, size + m - 1) <==> b in Extend(AllDraws(size, m - 1), Hits(size))
  {
    InExtend(AllDraws(size, m - 1), Hits(size), b);
    SplitOutcome(size, m, b);
    if b != [] && b[..|b| - 1] in AllDraws(size, m - 1) {
      var a, d := b[..|b| - 1], b[|b| - 1];
      assert b == a + [d];
      InAllDraws(size, m - 1, a);
      NewestEnters(size, a, d);
    }
  }

  /** An older item survives every draw but the one for its slot. */
  lemma {:induction false} OlderKept(size: nat, m: nat, p: nat)
    requires m > 0 && p < size + m - 1
    ensures |Keeping(size, m, p)| == |Keeping(size, m - 1, p)| * (size + m - 1)
  {
    var n := size + m - 1;
    var spares := Spares(size, m, p);
    forall b: Draws ensures b in Keeping(size, m, p) <==> b in Extend(Keeping(size, m - 1, p), spares) {
      InExtend(Keeping(size, m - 1, p), spares, b);
      SplitOutcome(size, m, b);
      if b != [] {
        var a, d := b[..|b| - 1], b[|b| - 1];
        assert b == a + [d];
        if a in AllDraws(size, m - 1) {
          StillThere(size, m, p, a, d);
        }
      }
    }
    assert Keeping(size, m, p) == Extend(Keeping(size, m - 1, p), spares);
    forall a: Draws | a in Keeping(size, m - 1, p) ensures |spares(a)| == n {
      SparesSize(size, m, p, a);
    }
    ExtendSize(Keeping(size, m - 1, p), spares, n);
  }

  function Spares(size: nat, m: nat, p: nat): Draws -> set<nat> {
    (a: Draws) => set d: nat | d in Range(0, size + m) && (d < size ==> Sample(size, a)[d] != p)
  }

  lemma {:induction false} StillThere(size: nat, m: nat, p: nat, a: Draws, d: nat)
    requires m > 0 && p < size + m - 1 && a in AllDraws(size, m - 1)
    ensures (d < size + m && p in Sample(size, a + [d])) <==> (p in Sample(size, a) && d in Spares(size, m, p)(a))
  {
    InAllDraws(size, m - 1, a);
    SampleStep(size, a, d);
    SampleIsDistinct(size, a);
    if d < size {
      StoreKeeps(Sample(size, a), d, size + m - 1, p);
    }
  }

  lemma {:induction false} StoreKeeps(s: seq<nat>, d: nat, n: nat, p: nat)
    requires Distinct(s) && d < |s| && p != n
    ensures p in Store(s, d, n) <==> p in s && s[d] != p
  {
    StoreMembers(s, d, n);
    assert p in Store(s, d, n) <==> p in Members(Store(s, d, n));
    assert p in s <==> p in Members(s);
  }

  lemma {:induction false} SparesSize(size: nat, m: nat, p: nat, a: Draws)
    requires m > 0 && p in Sample(size, a)
    ensures |Spares(size, m, p)(a)| == size + m - 1
  {
    SampleIsDistinct(size, a);
    var s := Sample(size, a);
    var slot: nat :| slot < size && s[slot] == p;
    forall e: nat | e < size ensures s[e] != p <==> e != slot {
      assert e < slot ==> s[e] != s[slot];
      assert slot < e ==> s[slot] != s[e];
    }
    RangeSize(0, size + m);
    assert Spares(size, m, p)(a) == Range(0, size + m) - {slot};
  }
}
