/** Spans of covered lines: pairwise apart and jointly covering means they are exactly the maximal runs. */
module CloneRuns {

  // A significant line: the file and its place among the significant lines of that file.
  type Line = (nat, nat)

  /** The significant lines from `lo` up to `hi`, exclusively, of a file. */
  datatype Span = Span(file: nat, lo: nat, hi: nat)

  predicate In(s: Span, l: Line) {
    l.0 == s.file && s.lo <= l.1 < s.hi
  }

  ghost predicate InSome(spans: seq<Span>, l: Line) {
    exists i :: 0 <= i < |spans| && In(spans[i], l)
  }

  /** Not even touching. */
  predicate Apart(a: Span, b: Span) {
    a.file != b.file || a.hi < b.lo || b.hi < a.lo
  }

  ghost predicate AllApart(spans: seq<Span>) {
    && (forall i :: 0 <= i < |spans| ==> spans[i].lo < spans[i].hi)
    && (forall i, j :: 0 <= i < j < |spans| ==> Apart(spans[i], spans[j]))
  }

  ghost predicate Covers(spans: seq<Span>, cover: set<Line>) {
    forall l: Line :: l in cover <==> InSome(spans, l)
  }

  ghost predicate Tiles(spans: seq<Span>, cover: set<Line>) {
    AllApart(spans) && Covers(spans, cover)
  }

  function Total(spans: seq<Span>): int {
    if spans == [] then 0
    else
      var last := spans[|spans| - 1];
      Total(spans[..|spans| - 1]) + (last.hi - last.lo)
  }

  lemma {:induction false} TotalAppend(spans: seq<Span>, s: Span)
    ensures Total(spans + [s]) == Total(spans) + (s.hi - s.lo)
  {
    assert (spans + [s])[..|spans|] == spans;
  }

  lemma {:induction false} TotalConcat(a: seq<Span>, b: seq<Span>)
    ensures Total(a + b) == Total(a) + Total(b)
  {
    if b == [] {
      assert a + b == a;
    } else {
      var n := |b| - 1;
      TotalConcat(a, b[..n]);
      assert (a + b)[..|a| + n] == a + b[..n];
    }
  }

  lemma {:induction false} InSomeAppend(spans: seq<Span>, s: Span, l: Line)
    ensures InSome(spans + [s], l) <==> InSome(spans, l) || In(s, l)
  {
    var both := spans + [s];
    assert both[|spans|] == s;
    assert forall i :: 0 <= i < |spans| ==> both[i] == spans[i];
  }

  lemma {:induction false} InSomeConcat(a: seq<Span>, b: seq<Span>, l: Line)
    ensures InSome(a + b, l) <==> InSome(a, l) || InSome(b, l)
  {
    assert forall i :: 0 <= i < |a| ==> (a + b)[i] == a[i];
    assert forall i :: 0 <= i < |b| ==> (a + b)[|a| + i] == b[i];
    if InSome(a + b, l) {
      var i :| 0 <= i < |a + b| && In((a + b)[i], l);
      assert if i < |a| then In(a[i], l) else In(b[i - |a|], l);
    }
  }

  function LinesOf(s: Span): (lines: set<Line>)
    ensures forall l: Line :: l in lines <==> In(s, l)
  {
    set x: nat | s.lo <= x < s.hi :: (s.file, x)
  }

  lemma {:induction false} SpanSize(s: Span)
    requires s.lo <= s.hi
    ensures |LinesOf(s)| == s.hi - s.lo
    decreases s.hi - s.lo
  {
    if s.lo == s.hi {
      assert LinesOf(s) == {};
    } else {
      var shorter := Span(s.file, s.lo, s.hi - 1);
      SpanSize(shorter);
      assert LinesOf(s) == LinesOf(shorter) + {(s.file, s.hi - 1)};
    }
  }

  /** The lengths of spans that are apart add up to the number of lines they cover. */
  lemma {:induction false} TotalIsCover(spans: seq<Span>, cover: set<Line>)
    requires Tiles(spans, cover)
    ensures Total(spans) == |cover|
    decreases |spans|
  {
    if spans == [] {
      assert forall l: Line :: l !in cover;
      assert cover == {};
    } else {
      var n := |spans| - 1;
      var last := LinesOf(spans[n]);
      SpanSize(spans[n]);
      RestTiles(spans, cover);
      TotalIsCover(spans[..n], cover - last);
      assert cover == (cover - last) + last;
    }
  }

  lemma {:induction false} RestTiles(spans: seq<Span>, cover: set<Line>)
    requires Tiles(spans, cover) && spans != []
    ensures Tiles(spans[..|spans| - 1], cover - LinesOf(spans[|spans| - 1])) && LinesOf(spans[|spans| - 1]) <= cover
  {
    var n := |spans| - 1;
    var rest := spans[..n];
    assert spans == rest + [spans[n]];
    forall l: Line ensures InSome(spans, l) <==> InSome(rest, l) || In(spans[n], l) {
      InSomeAppend(rest, spans[n], l);
    }
    forall l: Line | InSome(rest, l) ensures !In(spans[n], l) {
      var i :| 0 <= i < |rest| && In(rest[i], l);
      assert Apart(spans[i], spans[n]);
    }
  }

  /** A longest stretch of covered lines of one file. */
  ghost predicate IsRun(cover: set<Line>, s: Span) {
    && s.lo < s.hi
    && (forall x: nat :: s.lo <= x < s.hi ==> (s.file, x) in cover)
    && (s.file, s.hi) !in cover
    && (s.lo > 0 ==> (s.file, s.lo - 1) !in cover)
  }

  /** The spans are the runs, each once. */
  ghost predicate AreRuns(spans: seq<Span>, cover: set<Line>) {
    && (forall i, j :: 0 <= i < j < |spans| ==> spans[i] != spans[j])
    && (forall s: Span :: s in spans <==> IsRun(cover, s))
  }

  lemma {:induction false} TileIsRun(spans: seq<Span>, cover: set<Line>, i: nat)
    requires Tiles(spans, cover) && i < |spans|
    ensures IsRun(cover, spans[i])
  {
    var s := spans[i];
    forall x: nat | s.lo <= x < s.hi ensures (s.file, x) in cover {
      assert In(s, (s.file, x));
    }
    forall j | 0 <= j < |spans| && j != i ensures Apart(s, spans[j]) {
      assert if i < j then Apart(s, spans[j]) else Apart(spans[j], s);
    }
    forall x: nat | x == s.hi || x + 1 == s.lo ensures (s.file, x) !in cover {
      assert forall j :: 0 <= j < |spans| ==> !In(spans[j], (s.file, x));
    }
  }

  lemma {:induction false} RunEnds(cover: set<Line>, f: nat, x: nat) returns (hi: nat)
    requires (f, x) in cover
    ensures x < hi && (f, hi) !in cover && forall y: nat :: x <= y < hi ==> (f, y) in cover
    decreases |cover|
  {
    var next := (f, x + 1);
    hi := x + 1;
    if next in cover {
      hi := RunEnds(cover - {(f, x)}, f, x + 1);
    }
  }

  lemma {:induction false} RunBegins(cover: set<Line>, f: nat, x: nat) returns (lo: nat)
    requires (f, x) in cover
    ensures lo <= x && (lo > 0 ==> (f, lo - 1) !in cover) && forall y: nat :: lo <= y <= x ==> (f, y) in cover
  {
    lo := x;
    if x > 0 && (f, x - 1) in cover {
      lo := RunBegins(cover, f, x - 1);
    }
  }

  /** Every covered line lies in a run. */
  lemma {:induction false} RunAround(cover: set<Line>, f: nat, x: nat) returns (s: Span)
    requires (f, x) in cover
    ensures IsRun(cover, s) && In(s, (f, x))
  {
    var lo := RunBegins(cover, f, x);
    var hi := RunEnds(cover, f, x);
    s := Span(f, lo, hi);
  }

  lemma {:induction false} OverlappingRuns(cover: set<Line>, a: Span, b: Span, x: nat)
    requires IsRun(cover, a) && IsRun(cover, b) && In(a, (a.file, x)) && In(b, (a.file, x))
    ensures a == b
  {
    var beforeA := if a.lo > 0 then a.lo - 1 else 0;
    var beforeB := if b.lo > 0 then b.lo - 1 else 0;
    assert a.lo > 0 ==> !In(b, (a.file, beforeA));
    assert b.lo > 0 ==> !In(a, (a.file, beforeB));
    assert !In(b, (a.file, a.hi)) && !In(a, (a.file, b.hi));
  }

  lemma {:induction false} TilesAreRuns(spans: seq<Span>, cover: set<Line>)
    requires Tiles(spans, cover)
    ensures AreRuns(spans, cover)
  {
    forall s: Span ensures s in spans <==> IsRun(cover, s) {
      if s in spans {
        var i :| 0 <= i < |spans| && spans[i] == s;
        TileIsRun(spans, cover, i);
      }
      if IsRun(cover, s) {
        assert (s.file, s.lo) in cover;
        var i :| 0 <= i < |spans| && In(spans[i], (s.file, s.lo));
        TileIsRun(spans, cover, i);
        OverlappingRuns(cover, spans[i], s, s.lo);
      }
    }
    forall i, j | 0 <= i < j < |spans| ensures spans[i] != spans[j] {
      assert Apart(spans[i], spans[j]);
    }
  }

  /** Spans of different files never meet. */
  lemma {:induction false} TilesConcat(a: seq<Span>, b: seq<Span>, coverA: set<Line>, coverB: set<Line>)
    requires Tiles(a, coverA) && Tiles(b, coverB)
    requires forall i, j :: 0 <= i < |a| && 0 <= j < |b| ==> a[i].file != b[j].file
    ensures Tiles(a + b, coverA + coverB)
  {
    forall l: Line ensures l in coverA + coverB <==> InSome(a + b, l) {
      InSomeConcat(a, b, l);
    }
    var both := a + b;
    forall i, j | 0 <= i < j < |both| ensures Apart(both[i], both[j]) {
      if j < |a| {
        assert Apart(a[i], a[j]);
      } else if i >= |a| {
        assert Apart(b[i - |a|], b[j - |a|]);
      }
    }
  }
}
