/** From clusters to reported clones: window positions merge into regions, and the lines they cover are counted. */
module CloneRegions {
  import opened Collections
  import opened CloneRuns
  import opened CloneScan
  import opened StableSort

  datatype Region = Region(file: nat, startLine: nat, endLine: nat)

  datatype Clone = Clone(regions: seq<Region>, sigLines: int)

  // ----- one file -----

  /** The significant lines of one file that windows at these indices cover. */
  function FileLines(f: nat, idxs: seq<nat>): set<Line> {
    set i: nat, x: nat | i < |idxs| && idxs[i] <= x < idxs[i] + CLONE_WINDOW && Within(idxs[i], x) :: (f, x)
  }

  lemma {:induction false} FileLinesAre(f: nat, idxs: seq<nat>, l: Line)
    ensures l in FileLines(f, idxs) <==> l.0 == f && WithinSome(idxs, l.1)
  {
    if l.0 == f && WithinSome(idxs, l.1) {
      var i: nat :| i < |idxs| && Within(idxs[i], l.1);
      assert l == (f, l.1);
    }
  }

  predicate Within(start: nat, x: nat) {
    start <= x < start + CLONE_WINDOW
  }

  ghost predicate WithinSome(idxs: seq<nat>, x: nat) {
    exists i: nat :: i < |idxs| && Within(idxs[i], x)
  }

  lemma {:induction false} WithinSomeAppend(idxs: seq<nat>, next: nat, x: nat)
    ensures WithinSome(idxs + [next], x) <==> WithinSome(idxs, x) || Within(next, x)
  {
    var more := idxs + [next];
    assert more[|idxs|] == next;
    assert forall i: nat :: i < |idxs| ==> more[i] == idxs[i];
    if WithinSome(more, x) {
      var i: nat :| i < |more| && Within(more[i], x);
      assert i < |idxs| ==> Within(idxs[i], x);
    }
  }

  predicate NonDecreasing(s: seq<nat>) {
    forall i, j :: 0 <= i < j < |s| ==> s[i] <= s[j]
  }

  /** The spans flushed so far lie before the open one. */
  ghost predicate Before(spans: seq<Span>, f: nat, start: nat) {
    forall i :: 0 <= i < |spans| ==> spans[i].file == f && spans[i].hi < start
  }

  ghost predicate Sweeping(f: nat, idxs: seq<nat>, spans: seq<Span>, start: nat, prev: nat) {
    && start <= prev
    && Before(spans, f, start)
    && Tiles(spans + [Span(f, start, prev + CLONE_WINDOW)], FileLines(f, idxs))
  }

  lemma {:induction false} SweepFirst(f: nat, x: nat)
    ensures Sweeping(f, [x], [], x, x)
  {
    var spans := [] + [Span(f, x, x + CLONE_WINDOW)];
    assert spans[0] == Span(f, x, x + CLONE_WINDOW);
    forall l: Line ensures l in FileLines(f, [x]) <==> InSome(spans, l) {
      FileLinesAre(f, [x], l);
      assert WithinSome([x], l.1) <==> Within(x, l.1) by { assert [x][0] == x; }
      InSomeAppend([], spans[0], l);
    }
  }

  /** A window that touches the open span extends it. */
  lemma {:induction false} SweepOn(f: nat, idxs: seq<nat>, spans: seq<Span>, start: nat, prev: nat, next: nat)
    requires Sweeping(f, idxs, spans, start, prev) && prev <= next <= prev + CLONE_WINDOW
    ensures Sweeping(f, idxs + [next], spans, start, next)
  {
    var was, now := Span(f, start, prev + CLONE_WINDOW), Span(f, start, next + CLONE_WINDOW);
    forall l: Line ensures l in FileLines(f, idxs + [next]) <==> InSome(spans + [now], l) {
      FileLinesAre(f, idxs, l);
      FileLinesAre(f, idxs + [next], l);
      WithinSomeAppend(idxs, next, l.1);
      InSomeAppend(spans, was, l);
      InSomeAppend(spans, now, l);
      assert l in FileLines(f, idxs) <==> InSome(spans + [was], l);
    }
    BeforeIsApart(spans, f, start, was, now);
  }

  lemma {:induction false} BeforeIsApart(spans: seq<Span>, f: nat, start: nat, was: Span, now: Span)
    requires Before(spans, f, start) && AllApart(spans + [was])
    requires now.file == f && start <= now.lo < now.hi
    ensures AllApart(spans + [now])
  {
    var more := spans + [now];
    assert forall i :: 0 <= i < |spans| ==> (spans + [was])[i] == spans[i] && more[i] == spans[i];
    forall i, j | 0 <= i < j < |more| ensures Apart(more[i], more[j]) {
      if j < |spans| {
        assert Apart((spans + [was])[i], (spans + [was])[j]);
      }
    }
  }

  /** A window past the open span closes it and opens the next. */
  lemma {:induction false} SweepOver(f: nat, idxs: seq<nat>, spans: seq<Span>, start: nat, prev: nat, next: nat)
    requires Sweeping(f, idxs, spans, start, prev) && next > prev + CLONE_WINDOW
    ensures Sweeping(f, idxs + [next], spans + [Span(f, start, prev + CLONE_WINDOW)], next, next)
  {
    var closed := spans + [Span(f, start, prev + CLONE_WINDOW)];
    var now := Span(f, next, next + CLONE_WINDOW);
    forall l: Line ensures l in FileLines(f, idxs + [next]) <==> InSome(closed + [now], l) {
      FileLinesAre(f, idxs, l);
      FileLinesAre(f, idxs + [next], l);
      WithinSomeAppend(idxs, next, l.1);
      InSomeAppend(closed, now, l);
      assert l in FileLines(f, idxs) <==> InSome(closed, l);
    }
    assert Before(closed, f, next);
    var more := closed + [now];
    forall i, j | 0 <= i < j < |more| ensures Apart(more[i], more[j]) {
      if j < |closed| {
        assert Apart(closed[i], closed[j]);
      } else {
        assert closed[i].hi < next;
      }
    }
    assert forall i :: 0 <= i < |closed| ==> more[i] == closed[i];
  }

  predicate SpanOk(sig: Sig, s: Span) {
    s.file < |sig| && s.lo < s.hi <= |sig[s.file]|
  }

  function RegionOf(sig: Sig, s: Span): Region
    requires SpanOk(sig, s)
  {
    Region(s.file, sig[s.file][s.lo].number, sig[s.file][s.hi - 1].number)
  }

  /** One region per span: its file and the source lines where it starts and ends. */
  ghost predicate RegionsOf(sig: Sig, spans: seq<Span>, regions: seq<Region>) {
    && |regions| == |spans|
    && forall i :: 0 <= i < |spans| ==> SpanOk(sig, spans[i]) && regions[i] == RegionOf(sig, spans[i])
  }

  /** Separate spans of this file tile what its windows cover; the regions are theirs, the lines theirs together. */
  ghost predicate Swept(sig: Sig, f: nat, idxs: seq<nat>, spans: seq<Span>, regions: seq<Region>, sigLines: int) {
    && Tiles(spans, FileLines(f, idxs)) && sigLines == Total(spans) && RegionsOf(sig, spans, regions)
    && forall i :: 0 <= i < |spans| ==> spans[i].file == f
  }

  /** Merges the windows of one file, given by ascending indices, into regions. */
  method SweepFile(sig: Sig, f: nat, idxs: seq<nat>) returns (regions: seq<Region>, sigLines: int)
    requires f < |sig| && idxs != [] && NonDecreasing(idxs)
    requires forall i :: 0 <= i < |idxs| ==> idxs[i] + CLONE_WINDOW <= |sig[f]|
    ensures exists spans :: Swept(sig, f, idxs, spans, regions, sigLines)
  {
    regions, sigLines := [], 0;
    ghost var spans: seq<Span> := [];
    var start, prev := idxs[0], idxs[0];
    SweepFirst(f, idxs[0]);
    assert idxs[..1] == [idxs[0]];
    for k := 1 to |idxs|
      invariant prev == idxs[k - 1] && Sweeping(f, idxs[..k], spans, start, prev)
      invariant sigLines == Total(spans) && RegionsOf(sig, spans, regions)
    {
      assert idxs[..k + 1] == idxs[..k] + [idxs[k]];
      if idxs[k] > prev + CLONE_WINDOW {
        SweepOver(f, idxs[..k], spans, start, prev, idxs[k]);
        regions, sigLines := Flush(sig, f, start, prev, regions, sigLines, spans);
        spans := spans + [Span(f, start, prev + CLONE_WINDOW)];
        start := idxs[k];
      } else {
        SweepOn(f, idxs[..k], spans, start, prev, idxs[k]);
      }
      prev := idxs[k];
    }
    assert idxs[..|idxs|] == idxs;
    regions, sigLines := Flush(sig, f, start, prev, regions, sigLines, spans);
    assert Swept(sig, f, idxs, spans + [Span(f, start, prev + CLONE_WINDOW)], regions, sigLines);
  }

  /** Adds the region and the lines of the open span to those of the closed ones. */
  method Flush(sig: Sig, f: nat, start: nat, endIdx: nat, regions0: seq<Region>, sigLines0: int, ghost spans: seq<Span>)
    returns (regions: seq<Region>, sigLines: int)
    requires f < |sig| && start <= endIdx && endIdx + CLONE_WINDOW <= |sig[f]|
    requires sigLines0 == Total(spans) && RegionsOf(sig, spans, regions0)
    ensures sigLines == Total(spans + [Span(f, start, endIdx + CLONE_WINDOW)])
    ensures RegionsOf(sig, spans + [Span(f, start, endIdx + CLONE_WINDOW)], regions)
  {
    regions := regions0 + [Region(f, sig[f][start].number, sig[f][endIdx + CLONE_WINDOW - 1].number)];
    sigLines := sigLines0 + (endIdx + CLONE_WINDOW - start);
    TotalAppend(spans, Span(f, start, endIdx + CLONE_WINDOW));
  }

  // ----- one cluster -----

  /** Some position is window `x` of file `f`. */
  ghost predicate At(positions: seq<nat>, f: nat, x: nat) {
    exists i: nat :: i < |positions| && positions[i] / POS == f && positions[i] % POS == x
  }

  predicate Reaches(pos: nat, x: nat) {
    Within(pos % POS, x)
  }

  /** The significant lines that the windows of a cluster cover. */
  function Covered(positions: seq<nat>): set<Line> {
    set i: nat, x: nat | i < |positions| && positions[i] % POS <= x < positions[i] % POS + CLONE_WINDOW && Reaches(positions[i], x)
      :: (positions[i] / POS, x)
  }

  function CoveredIn(positions: seq<nat>, files: set<nat>): set<Line> {
    set l: Line | l in Covered(positions) && l.0 in files
  }

  type PerFile = map<nat, seq<nat>>

  ghost predicate SplitUp(positions: seq<nat>, perFile: PerFile) {
    && (forall f: nat :: f in perFile ==> perFile[f] != [])
    && (forall f: nat, x: nat :: (f in perFile && x in perFile[f]) <==> At(positions, f, x))
  }

  lemma {:induction false} AtAppend(positions: seq<nat>, pos: nat, f: nat, x: nat)
    ensures At(positions + [pos], f, x) <==> At(positions, f, x) || (pos / POS == f && pos % POS == x)
  {
    var more := positions + [pos];
    assert more[|positions|] == pos;
    assert forall i: nat :: i < |positions| ==> more[i] == positions[i];
  }

  method SplitByFile(positions: seq<nat>) returns (perFile: PerFile)
    ensures SplitUp(positions, perFile)
  {
    perFile := map[];
    for k := 0 to |positions|
      invariant SplitUp(positions[..k], perFile)
    {
      var f := positions[k] / POS;
      var list := if f in perFile then perFile[f] else [];
      assert positions[..k + 1] == positions[..k] + [positions[k]];
      SplitNext(positions[..k], perFile, positions[k]);
      perFile := perFile[f := list + [positions[k] % POS]];
    }
    assert positions[..|positions|] == positions;
  }

  lemma {:induction false} SplitNext(positions: seq<nat>, perFile: PerFile, pos: nat)
    requires SplitUp(positions, perFile)
    ensures var list := if pos / POS in perFile then perFile[pos / POS] else [];
      SplitUp(positions + [pos], perFile[pos / POS := list + [pos % POS]])
  {
    var list := if pos / POS in perFile then perFile[pos / POS] else [];
    var next := perFile[pos / POS := list + [pos % POS]];
    forall f: nat, x: nat ensures (f in next && x in next[f]) <==> At(positions + [pos], f, x) {
      AtAppend(positions, pos, f, x);
      assert (f in perFile && x in perFile[f]) <==> At(positions, f, x);
    }
  }

  /** A file's share of the cover comes from its own windows. */
  lemma {:induction false} FileShare(positions: seq<nat>, perFile: PerFile, f: nat, idxs: seq<nat>, files: set<nat>)
    requires SplitUp(positions, perFile) && f in perFile && f !in files
    requires forall x: nat :: x in idxs <==> x in perFile[f]
    ensures CoveredIn(positions, files + {f}) == CoveredIn(positions, files) + FileLines(f, idxs)
  {
    forall l: Line ensures l in Covered(positions) && l.0 == f <==> l in FileLines(f, idxs) {
      FileLinesAre(f, idxs, l);
      if l in Covered(positions) && l.0 == f {
        var i: nat :| i < |positions| && positions[i] / POS == f && Reaches(positions[i], l.1);
        var x: nat := positions[i] % POS;
        assert At(positions, f, x);
        assert Reaches(positions[i], l.1);
        assert Within(x, l.1);
        var j: nat :| j < |idxs| && idxs[j] == x;
        assert Within(idxs[j], l.1);
      }
      if l in FileLines(f, idxs) {
        var j: nat :| j < |idxs| && Within(idxs[j], l.1);
        assert idxs[j] in idxs && At(positions, f, idxs[j]);
        var i: nat :| i < |positions| && positions[i] / POS == f && positions[i] % POS == idxs[j];
        assert Reaches(positions[i], l.1) && l == (positions[i] / POS, l.1);
      }
    }
  }

  function Negated(x: nat): int {
    var y: int := x;
    -y
  }

  method SortAscending(idxs: seq<nat>) returns (sorted: seq<nat>)
    ensures NonDecreasing(sorted) && |sorted| == |idxs| && forall x: nat :: x in sorted <==> x in idxs
  {
    sorted := SortDesc(idxs, Negated);
    SortIsDescending(idxs, Negated);
    SortKeepsLength(idxs, Negated);
    forall i, j | 0 <= i < j < |sorted| ensures sorted[i] <= sorted[j] {
      assert Negated(sorted[i]) >= Negated(sorted[j]);
    }
    assert forall x: nat :: x in sorted <==> x in multiset(sorted);
    assert forall x: nat :: x in idxs <==> x in multiset(idxs);
  }

  /** The regions are exactly the maximal runs of covered lines, and `sigLines` counts the covered lines. */
  ghost predicate Measured(sig: Sig, positions: seq<nat>, clone: Clone) {
    && clone.sigLines == |Covered(positions)|
    && exists spans :: AreRuns(spans, Covered(positions)) && RegionsOf(sig, spans, clone.regions)
  }

  ghost predicate AllWindows(sig: Sig, positions: seq<nat>) {
    forall i :: 0 <= i < |positions| ==> IsWindow(sig, positions[i])
  }

  /** Merges the windows of a cluster into per-file regions. */
  method MeasureCluster(sig: Sig, positions: seq<nat>) returns (clone: Clone)
    requires AllWindows(sig, positions)
    ensures Measured(sig, positions, clone)
  {
    var perFile := SplitByFile(positions);
    var regions: seq<Region>, sigLines, todo := [], 0, perFile.Keys;
    ghost var spans: seq<Span> := [];
    while todo != {}
      invariant todo <= perFile.Keys
      invariant SomeFilesMeasured(sig, positions, perFile.Keys - todo, spans, regions, sigLines)
      decreases todo
    {
      var f :| f in todo;
      FilesAreFine(sig, positions, perFile, f);
      var idxs := SortAscending(perFile[f]);
      assert forall i :: 0 <= i < |idxs| ==> idxs[i] in perFile[f];
      var found, lines := SweepFile(sig, f, idxs);
      ghost var more :| Swept(sig, f, idxs, more, found, lines);
      FileShare(positions, perFile, f, idxs, perFile.Keys - todo);
      AddFile(sig, positions, perFile.Keys - todo, spans, regions, sigLines, f, idxs, more, found);
      assert perFile.Keys - todo + {f} == perFile.Keys - (todo - {f});
      regions, sigLines, spans := regions + found, sigLines + lines, spans + more;
      todo := todo - {f};
    }
    assert perFile.Keys - {} == perFile.Keys;
    AllFiles(positions, perFile);
    TotalIsCover(spans, Covered(positions));
    TilesAreRuns(spans, Covered(positions));
    clone := Clone(regions, sigLines);
  }

  /** The spans found in these files tile what the windows cover there. */
  ghost predicate SomeFilesMeasured(sig: Sig, positions: seq<nat>, files: set<nat>, spans: seq<Span>,
                                    regions: seq<Region>, sigLines: int) {
    && Tiles(spans, CoveredIn(positions, files))
    && sigLines == Total(spans)
    && RegionsOf(sig, spans, regions)
    && forall i :: 0 <= i < |spans| ==> spans[i].file in files
  }

  lemma {:induction false} FilesAreFine(sig: Sig, positions: seq<nat>, perFile: PerFile, f: nat)
    requires AllWindows(sig, positions) && SplitUp(positions, perFile) && f in perFile
    ensures f < |sig| && forall x: nat :: x in perFile[f] ==> x + CLONE_WINDOW <= |sig[f]|
  {
    forall x: nat | x in perFile[f] ensures f < |sig| && x + CLONE_WINDOW <= |sig[f]| {
      assert At(positions, f, x);
      var i: nat :| i < |positions| && positions[i] / POS == f && positions[i] % POS == x;
      assert IsWindow(sig, positions[i]);
    }
    assert perFile[f][0] in perFile[f];
  }

  lemma {:induction false} AddFile(sig: Sig, positions: seq<nat>, files: set<nat>, spans: seq<Span>, regions: seq<Region>, sigLines: int,
                f: nat, idxs: seq<nat>, more: seq<Span>, found: seq<Region>)
    requires SomeFilesMeasured(sig, positions, files, spans, regions, sigLines) && f !in files
    requires CoveredIn(positions, files + {f}) == CoveredIn(positions, files) + FileLines(f, idxs)
    requires Tiles(more, FileLines(f, idxs)) && RegionsOf(sig, more, found)
    requires forall i :: 0 <= i < |more| ==> more[i].file == f
    ensures SomeFilesMeasured(sig, positions, files + {f}, spans + more, regions + found, sigLines + Total(more))
  {
    forall i, j | 0 <= i < |spans| && 0 <= j < |more| ensures spans[i].file != more[j].file {
      assert spans[i].file in files;
    }
    TilesConcat(spans, more, CoveredIn(positions, files), FileLines(f, idxs));
    TotalConcat(spans, more);
    RegionsConcat(sig, spans, more, regions, found);
    FilesConcat(spans, more, files, f);
  }

  lemma {:induction false} FilesConcat(a: seq<Span>, b: seq<Span>, files: set<nat>, f: nat)
    requires forall i :: 0 <= i < |a| ==> a[i].file in files
    requires forall i :: 0 <= i < |b| ==> b[i].file == f
    ensures forall i :: 0 <= i < |a + b| ==> (a + b)[i].file in files + {f}
  {
  }

  lemma {:induction false} RegionsConcat(sig: Sig, a: seq<Span>, b: seq<Span>, ra: seq<Region>, rb: seq<Region>)
    requires RegionsOf(sig, a, ra) && RegionsOf(sig, b, rb)
    ensures RegionsOf(sig, a + b, ra + rb)
  {
  }

  lemma {:induction false} AllFiles(positions: seq<nat>, perFile: PerFile)
    requires SplitUp(positions, perFile)
    ensures CoveredIn(positions, perFile.Keys) == Covered(positions)
  {
    forall l: Line | l in Covered(positions) ensures l.0 in perFile {
      var i: nat :| i < |positions| && positions[i] / POS == l.0 && Reaches(positions[i], l.1);
      assert At(positions, l.0, positions[i] % POS);
    }
  }

  /** Later significant lines of a file have greater source lines. */
  ghost predicate NumbersAscend(sig: Sig) {
    forall f: nat, i: nat, j: nat :: f < |sig| && i < j < |sig[f]| ==> sig[f][i].number < sig[f][j].number
  }

  /** A region reaches from the first to the last source line of its span: it holds just the significant lines of the span. */
  lemma {:induction false} RegionIsExtent(sig: Sig, s: Span, x: nat)
    requires NumbersAscend(sig) && SpanOk(sig, s) && x < |sig[s.file]|
    ensures var r, number := RegionOf(sig, s), sig[s.file][x].number;
      && r.file == s.file
      && (r.startLine <= number <= r.endLine <==> In(s, (s.file, x)))
      && (x == s.lo ==> r.startLine == number) && (x + 1 == s.hi ==> r.endLine == number)
  {
    var f := s.file;
    assert x < s.lo ==> sig[f][x].number < sig[f][s.lo].number;
    assert x > s.lo ==> sig[f][s.lo].number < sig[f][x].number;
    assert x < s.hi - 1 ==> sig[f][x].number < sig[f][s.hi - 1].number;
    assert x > s.hi - 1 ==> sig[f][s.hi - 1].number < sig[f][x].number;
  }

  ghost predicate InRegion(regions: seq<Region>, f: nat, number: nat) {
    exists i :: 0 <= i < |regions| && regions[i].file == f && regions[i].startLine <= number <= regions[i].endLine
  }

  /** One of the cluster's windows reaches over significant line `x` of file `f`. */
  ghost predicate WindowOver(positions: seq<nat>, f: nat, x: nat) {
    exists i :: 0 <= i < |positions| && positions[i] / POS == f && positions[i] % POS <= x < positions[i] % POS + 7
  }

  /** A significant line lies in a reported region of its file exactly when a window of the cluster reaches over it. */
  lemma {:induction false} RegionsHoldCover(sig: Sig, positions: seq<nat>, clone: Clone, f: nat, x: nat)
    requires NumbersAscend(sig) && Measured(sig, positions, clone) && f < |sig| && x < |sig[f]|
    ensures InRegion(clone.regions, f, sig[f][x].number) <==> WindowOver(positions, f, x)
  {
    var spans: seq<Span> :| AreRuns(spans, Covered(positions)) && RegionsOf(sig, spans, clone.regions);
    CoverIsWindows(positions, f, x);
    if WindowOver(positions, f, x) {
      CoveredIsHeld(sig, Covered(positions), spans, clone.regions, f, x);
    }
    if InRegion(clone.regions, f, sig[f][x].number) {
      HeldIsCovered(sig, Covered(positions), spans, clone.regions, f, x);
    }
  }

  lemma {:induction false} CoveredIsHeld(sig: Sig, cover: set<Line>, spans: seq<Span>, regions: seq<Region>, f: nat, x: nat)
    requires NumbersAscend(sig) && AreRuns(spans, cover) && RegionsOf(sig, spans, regions) && f < |sig| && x < |sig[f]|
    requires (f, x) in cover
    ensures InRegion(regions, f, sig[f][x].number)
  {
    var s := RunAround(cover, f, x);
    var i :| 0 <= i < |spans| && spans[i] == s;
    RegionIsExtent(sig, spans[i], x);
  }

  lemma {:induction false} HeldIsCovered(sig: Sig, cover: set<Line>, spans: seq<Span>, regions: seq<Region>, f: nat, x: nat)
    requires NumbersAscend(sig) && AreRuns(spans, cover) && RegionsOf(sig, spans, regions) && f < |sig| && x < |sig[f]|
    requires InRegion(regions, f, sig[f][x].number)
    ensures (f, x) in cover
  {
    var i :| 0 <= i < |regions| && regions[i].file == f && regions[i].startLine <= sig[f][x].number <= regions[i].endLine;
    assert spans[i] in spans;
    RegionIsExtent(sig, spans[i], x);
  }

  lemma {:induction false} CoverIsWindows(positions: seq<nat>, f: nat, x: nat)
    ensures (f, x) in Covered(positions) <==> WindowOver(positions, f, x)
  {
    if WindowOver(positions, f, x) {
      var i: nat :| i < |positions| && positions[i] / POS == f && positions[i] % POS <= x < positions[i] % POS + 7;
      assert Reaches(positions[i], x);
    }
  }

  // ----- all clusters -----

  /** The cover has at least two separate stretches. */
  ghost predicate Repeated(positions: seq<nat>) {
    exists a, b :: a != b && IsRun(Covered(positions), a) && IsRun(Covered(positions), b)
  }

  lemma {:induction false} TwoRegionsOrMore(sig: Sig, positions: seq<nat>, clone: Clone)
    requires Measured(sig, positions, clone)
    ensures |clone.regions| >= 2 <==> Repeated(positions)
  {
    var spans :| AreRuns(spans, Covered(positions)) && RegionsOf(sig, spans, clone.regions);
    if |spans| >= 2 {
      assert spans[0] in spans && spans[1] in spans && spans[0] != spans[1];
    }
    if Repeated(positions) {
      var a, b :| a != b && IsRun(Covered(positions), a) && IsRun(Covered(positions), b);
      assert a in spans && b in spans;
    }
  }

  /** The clones found so far are those of the clusters at `roots`, the repeated ones among `done`. */
  ghost predicate Found(sig: Sig, clusters: Clusters, done: set<nat>, roots: seq<nat>, found: seq<Clone>) {
    && |found| == |roots| && Distinct(roots)
    && (forall i :: 0 <= i < |roots| ==> roots[i] in clusters && Measured(sig, clusters[roots[i]], found[i]))
    && (forall r: nat :: r in roots <==> r in done && r in clusters && Repeated(clusters[r]))
  }

  function SigLines(c: Clone): int {
    c.sigLines
  }

  lemma {:induction false} FindNext(sig: Sig, clusters: Clusters, done: set<nat>, roots: seq<nat>, found: seq<Clone>, r: nat, clone: Clone)
    requires Found(sig, clusters, done, roots, found) && r in clusters && r !in done && Measured(sig, clusters[r], clone)
    ensures if |clone.regions| < 2 then Found(sig, clusters, done + {r}, roots, found)
            else Found(sig, clusters, done + {r}, roots + [r], found + [clone])
  {
    TwoRegionsOrMore(sig, clusters[r], clone);
    NoRepeatsAppend(roots, r);
  }

  /** Measures every cluster, in any order, and keeps those that occur in at least two places. */
  method MeasureClusters(sig: Sig, clusters: Clusters) returns (found: seq<Clone>)
    requires forall r: nat :: r in clusters ==> AllWindows(sig, clusters[r])
    ensures exists roots :: Found(sig, clusters, clusters.Keys, roots, found)
  {
    found := [];
    ghost var roots: seq<nat> := [];
    var todo := clusters.Keys;
    while todo != {}
      invariant todo <= clusters.Keys && Found(sig, clusters, clusters.Keys - todo, roots, found)
      decreases todo
    {
      var r :| r in todo;
      var clone := MeasureCluster(sig, clusters[r]);
      FindNext(sig, clusters, clusters.Keys - todo, roots, found, r, clone);
      assert clusters.Keys - todo + {r} == clusters.Keys - (todo - {r});
      if |clone.regions| >= 2 {
        found := found + [clone];
        roots := roots + [r];
      }
      todo := todo - {r};
    }
    assert clusters.Keys - {} == clusters.Keys;
  }

  lemma {:induction false} ClustersAreWindows(sig: Sig, hash: seq<string> -> nat, clusters: Clusters, r: nat)
    requires Clustered(sig, hash, clusters) && r in clusters
    ensures AllWindows(sig, clusters[r])
  {
    forall i | 0 <= i < |clusters[r]| ensures IsWindow(sig, clusters[r][i]) {
      assert InCluster(clusters, clusters[r][i]);
    }
  }

  /**
   * The whole detector: exact clusters, each with at least two separate regions reported once, its regions the maximal
   * runs of the lines its windows cover, its size the number of those lines, and larger clones first.
   */
  method DetectClones(sig: Sig, hash: seq<string> -> nat) returns (results: seq<Clone>)
    requires FilesFit(sig)
    ensures exists clusters, roots, found :: Clustered(sig, hash, clusters) && Detected(sig, clusters, roots, found, results)
    ensures Descending(results, SigLines)
  {
    var clusters := ClusterMatches(sig, hash);
    forall r: nat | r in clusters ensures AllWindows(sig, clusters[r]) {
      ClustersAreWindows(sig, hash, clusters, r);
    }
    var found := MeasureClusters(sig, clusters);
    ghost var roots :| Found(sig, clusters, clusters.Keys, roots, found);
    SortIsDescending(found, SigLines);
    results := SortDesc(found, SigLines);
    assert Detected(sig, clusters, roots, found, results);
  }

  /** The results are the measured clones of all repeated clusters, in some order. */
  ghost predicate Detected(sig: Sig, clusters: Clusters, roots: seq<nat>, found: seq<Clone>, results: seq<Clone>) {
    Found(sig, clusters, clusters.Keys, roots, found) && multiset(results) == multiset(found)
  }
}
