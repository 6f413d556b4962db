/**
 * The selection of promotable lines, read off the text of the diff: which line of which file an added bullet stands on,
 * and which of them are new, without the scan that finds them.
 */
module ChangelogRows {
  import opened Options
  import opened ChangelogText
  import opened ChangelogPairing
  import opened ChangelogDiff

  // ----- where a row of the text is -----

  predicate IsName(raw: string) {
    StartsWith(raw, "+++ b/")
  }

  predicate IsFile(raw: string) {
    StartsWith(raw, "diff --git ")
  }

  predicate IsHeader(raw: string, hunkStart: HunkStart) {
    !IsName(raw) && !IsFile(raw) && hunkStart(raw).Some?
  }

  /** The file named last above row `r`, unless another one has begun since. */
  function PathAt(lines: seq<string>, r: nat): string
    requires r <= |lines|
  {
    if r == 0 || IsFile(lines[r - 1]) then ""
    else if IsName(lines[r - 1]) then lines[r - 1][6..]
    else PathAt(lines, r - 1)
  }

  /** The hunk header closest above row `r` in its file. */
  function HeaderAt(lines: seq<string>, hunkStart: HunkStart, r: nat): Option<nat>
    requires r <= |lines|
  {
    if r == 0 || IsFile(lines[r - 1]) then None
    else if IsHeader(lines[r - 1], hunkStart) then Some(r - 1)
    else HeaderAt(lines, hunkStart, r - 1)
  }

  /** Its number in the file, from 0. */
  function HunkAt(lines: seq<string>, hunkStart: HunkStart, r: nat): int
    requires r <= |lines|
  {
    if r == 0 || IsFile(lines[r - 1]) then -1
    else HunkAt(lines, hunkStart, r - 1) + if IsHeader(lines[r - 1], hunkStart) then 1 else 0
  }

  /** A row of a hunk of a named file. */
  predicate InHunk(lines: seq<string>, hunkStart: HunkStart, r: nat)
    requires r < |lines|
  {
    PathAt(lines, r) != "" && HeaderAt(lines, hunkStart, r).Some? && IsBodyLine(lines[r], hunkStart)
  }

  /** A row that is a line of the new file: an added one or one of the context. */
  predicate IsNewLine(lines: seq<string>, hunkStart: HunkStart, r: nat)
    requires r < |lines|
  {
    InHunk(lines, hunkStart, r) && lines[r] != [] && (lines[r][0] == '+' || lines[r][0] == ' ')
  }

  /** How many of the rows from `first` up to `r` are such lines. */
  function NewLines(lines: seq<string>, hunkStart: HunkStart, first: nat, r: nat): nat
    requires first <= r <= |lines|
    decreases r
  {
    if first == r then 0 else NewLines(lines, hunkStart, first, r - 1) + if IsNewLine(lines, hunkStart, r - 1) then 1 else 0
  }

  /** The line of the new file at row `r`: what the header announces, and one more for each line of the new file since. */
  function LineAt(lines: seq<string>, hunkStart: HunkStart, r: nat): int
    requires r <= |lines| && HeaderAt(lines, hunkStart, r).Some?
  {
    var h := HeaderAt(lines, hunkStart, r).value;
    HeaderIsAbove(lines, hunkStart, r);
    hunkStart(lines[h]).value + NewLines(lines, hunkStart, h + 1, r)
  }

  /** No later row is a header or begins a file. */
  lemma {:induction false} HeaderIsAbove(lines: seq<string>, hunkStart: HunkStart, r: nat)
    requires r <= |lines| && HeaderAt(lines, hunkStart, r).Some?
    ensures var h := HeaderAt(lines, hunkStart, r).value;
      h < r && IsHeader(lines[h], hunkStart) && forall q :: h < q < r ==> !IsHeader(lines[q], hunkStart) && !IsFile(lines[q])
    decreases r
  {
    if !IsHeader(lines[r - 1], hunkStart) {
      HeaderIsAbove(lines, hunkStart, r - 1);
    }
  }

  // ----- the scan is there -----

  ghost predicate ScanIsAt(lines: seq<string>, hunkStart: HunkStart, r: nat, s: Scan)
    requires r <= |lines|
  {
    && s.path == PathAt(lines, r)
    && s.hunkIndex == HunkAt(lines, hunkStart, r) >= -1
    && (s.hunkIndex >= 0 <==> HeaderAt(lines, hunkStart, r).Some?)
    && (s.hunkIndex >= 0 ==> s.newLine == LineAt(lines, hunkStart, r))
  }

  lemma {:induction false} ScanPlaces(lines: seq<string>, hunkStart: HunkStart, r: nat)
    requires r <= |lines|
    ensures ScanIsAt(lines, hunkStart, r, ScanAll(SCAN_START, lines[..r], hunkStart))
    decreases r
  {
    if r > 0 {
      ScanPlaces(lines, hunkStart, r - 1);
      ScanNext(lines, hunkStart, r - 1);
      PlaceNext(lines, hunkStart, r - 1, ScanAll(SCAN_START, lines[..r - 1], hunkStart));
    }
  }

  lemma {:induction false} ScanNext(lines: seq<string>, hunkStart: HunkStart, r: nat)
    requires r < |lines|
    ensures ScanAll(SCAN_START, lines[..r + 1], hunkStart) == ScanLine(ScanAll(SCAN_START, lines[..r], hunkStart), lines[r], hunkStart)
  {
    assert lines[..r + 1][..r] == lines[..r];
  }

  lemma {:induction false} FirstLetter(raw: string)
    ensures IsName(raw) ==> raw != [] && raw[0] == '+' && !IsFile(raw)
    ensures IsFile(raw) ==> raw != [] && raw[0] == 'd'
  {
    if IsName(raw) { assert raw[0] == raw[..6][0]; }
    if IsFile(raw) { assert raw[0] == raw[..11][0]; }
  }

  lemma {:induction false} PlaceNext(lines: seq<string>, hunkStart: HunkStart, r: nat, s: Scan)
    requires r < |lines| && ScanIsAt(lines, hunkStart, r, s)
    ensures ScanIsAt(lines, hunkStart, r + 1, ScanLine(s, lines[r], hunkStart))
  {
    FirstLetter(lines[r]);
    if HeaderAt(lines, hunkStart, r).Some? {
      HeaderIsAbove(lines, hunkStart, r);
    }
  }

  // ----- the bullets it has collected -----

  predicate Added(lines: seq<string>, hunkStart: HunkStart, r: nat) {
    r < |lines| && InHunk(lines, hunkStart, r) && IsAddedBullet(lines[r])
  }

  predicate Removed(lines: seq<string>, hunkStart: HunkStart, r: nat) {
    r < |lines| && InHunk(lines, hunkStart, r) && IsRemovedBullet(lines[r])
  }

  /** Adds a release heading. */
  predicate AddsRelease(lines: seq<string>, hunkStart: HunkStart, r: nat) {
    r < |lines| && InHunk(lines, hunkStart, r) && StartsWith(lines[r], "+## [")
  }

  function HunkOf(lines: seq<string>, hunkStart: HunkStart, r: nat): Hunk
    requires r <= |lines|
  {
    (PathAt(lines, r), HunkAt(lines, hunkStart, r))
  }

  function AddedBullet(lines: seq<string>, hunkStart: HunkStart, r: nat): Candidate
    requires Added(lines, hunkStart, r)
  {
    Candidate(PathAt(lines, r), LineAt(lines, hunkStart, r), lines[r][1..], HunkOf(lines, hunkStart, r))
  }

  function RemovedBullet(lines: seq<string>, hunkStart: HunkStart, r: nat): Removal
    requires Removed(lines, hunkStart, r)
  {
    Removal(PathAt(lines, r), lines[r][1..], HunkOf(lines, hunkStart, r))
  }

  /** The scan of the first `r` rows. */
  function Scanned(lines: seq<string>, hunkStart: HunkStart, r: nat): Scan
    requires r <= |lines|
  {
    ScanAll(SCAN_START, lines[..r], hunkStart)
  }

  /** What row `r` contributes. */
  lemma {:induction false} RowYields(lines: seq<string>, hunkStart: HunkStart, r: nat)
    requires r < |lines|
    ensures var s, t := Scanned(lines, hunkStart, r), Scanned(lines, hunkStart, r + 1);
      && t.candidates == s.candidates + (if Added(lines, hunkStart, r) then [AddedBullet(lines, hunkStart, r)] else [])
      && t.removals == s.removals + (if Removed(lines, hunkStart, r) then [RemovedBullet(lines, hunkStart, r)] else [])
      && t.headings == s.headings + (if AddsRelease(lines, hunkStart, r) then {HunkOf(lines, hunkStart, r)} else {})
  {
    ScanPlaces(lines, hunkStart, r);
    ScanNext(lines, hunkStart, r);
    FirstLetter(lines[r]);
    HeadingNext([], lines[r]);
  }

  /** Scanning on only adds. */
  lemma {:induction false} ScanGrows(lines: seq<string>, hunkStart: HunkStart, r: nat, n: nat)
    requires r <= n <= |lines|
    ensures var s, t := Scanned(lines, hunkStart, r), Scanned(lines, hunkStart, n);
      s.candidates <= t.candidates && s.removals <= t.removals
    decreases n
  {
    if r < n {
      ScanGrows(lines, hunkStart, r, n - 1);
      RowYields(lines, hunkStart, n - 1);
    }
  }

  /** Every added bullet of the scan is the one of some row, the bullets of the rows above it standing before it. */
  lemma {:induction false} RowOfCandidate(lines: seq<string>, hunkStart: HunkStart, n: nat, i: nat) returns (r: nat)
    requires n <= |lines| && i < |Scanned(lines, hunkStart, n).candidates|
    ensures r < n && Added(lines, hunkStart, r) && |Scanned(lines, hunkStart, r).candidates| == i
    ensures Scanned(lines, hunkStart, n).candidates[i] == AddedBullet(lines, hunkStart, r)
    decreases n
  {
    assert lines[..0] == [];
    if n > 0 {
      RowYields(lines, hunkStart, n - 1);
      if i < |Scanned(lines, hunkStart, n - 1).candidates| {
        r := RowOfCandidate(lines, hunkStart, n - 1, i);
      } else {
        r := n - 1;
      }
    }
  }

  lemma {:induction false} CandidateOfRow(lines: seq<string>, hunkStart: HunkStart, n: nat, r: nat)
    requires r < n <= |lines| && Added(lines, hunkStart, r)
    ensures var i := |Scanned(lines, hunkStart, r).candidates|;
      i < |Scanned(lines, hunkStart, n).candidates| && Scanned(lines, hunkStart, n).candidates[i] == AddedBullet(lines, hunkStart, r)
  {
    RowYields(lines, hunkStart, r);
    ScanGrows(lines, hunkStart, r + 1, n);
  }

  lemma {:induction false} RemovalOfRow(lines: seq<string>, hunkStart: HunkStart, n: nat, r: nat)
    requires r < n <= |lines| && Removed(lines, hunkStart, r)
    ensures var j := |Scanned(lines, hunkStart, r).removals|;
      j < |Scanned(lines, hunkStart, n).removals| && Scanned(lines, hunkStart, n).removals[j] == RemovedBullet(lines, hunkStart, r)
  {
    RowYields(lines, hunkStart, r);
    ScanGrows(lines, hunkStart, r + 1, n);
  }

  lemma {:induction false} HeadingRows(lines: seq<string>, hunkStart: HunkStart, n: nat, h: Hunk)
    requires n <= |lines|
    ensures h in Scanned(lines, hunkStart, n).headings
      <==> exists q :: 0 <= q < n && AddsRelease(lines, hunkStart, q) && HunkOf(lines, hunkStart, q) == h
    decreases n
  {
    if n == 0 {
      assert lines[..0] == [];
    } else {
      HeadingRows(lines, hunkStart, n - 1, h);
      RowYields(lines, hunkStart, n - 1);
    }
  }

  // ----- counting rows -----

  /** How many of the first `n` rows are of this kind. */
  function Rows(n: nat, kind: nat -> bool): nat {
    if n == 0 then 0 else Rows(n - 1, kind) + if kind(n - 1) then 1 else 0
  }

  lemma {:induction false} CountCPrefix(cs: seq<Candidate>, all: seq<Candidate>, key: Key, n: nat)
    requires cs <= all && n <= |cs|
    ensures CountC(all, key, n) == CountC(cs, key, n)
    decreases n
  {
    if n > 0 {
      CountCPrefix(cs, all, key, n - 1);
    }
  }

  lemma {:induction false} CountRPrefix(rs: seq<Removal>, all: seq<Removal>, key: Key, n: nat)
    requires rs <= all && n <= |rs|
    ensures Indices(all, key, n) == Indices(rs, key, n)
    decreases n
  {
    if n > 0 {
      CountRPrefix(rs, all, key, n - 1);
    }
  }

  /** An added bullet of this file with this text. */
  predicate AddedWith(lines: seq<string>, hunkStart: HunkStart, path: string, text: string, q: nat) {
    Added(lines, hunkStart, q) && PathAt(lines, q) == path && Trim(lines[q][1..]) == text
  }

  predicate RemovedWith(lines: seq<string>, hunkStart: HunkStart, path: string, text: string, q: nat) {
    Removed(lines, hunkStart, q) && PathAt(lines, q) == path && Trim(lines[q][1..]) == text
  }

  function AddedRows(lines: seq<string>, hunkStart: HunkStart, path: string, text: string, n: nat): nat {
    Rows(n, (q: nat) => AddedWith(lines, hunkStart, path, text, q))
  }

  function RemovedRows(lines: seq<string>, hunkStart: HunkStart, path: string, text: string, n: nat): nat {
    Rows(n, (q: nat) => RemovedWith(lines, hunkStart, path, text, q))
  }

  lemma {:induction false} AddedRowsAre(lines: seq<string>, hunkStart: HunkStart, path: string, text: string, n: nat)
    requires n <= |lines|
    ensures var cs := Scanned(lines, hunkStart, n).candidates;
      CountC(cs, (path, text), |cs|) == AddedRows(lines, hunkStart, path, text, n)
    decreases n
  {
    if n == 0 {
      assert lines[..0] == [];
    } else {
      var cs, more := Scanned(lines, hunkStart, n - 1).candidates, Scanned(lines, hunkStart, n).candidates;
      AddedRowsAre(lines, hunkStart, path, text, n - 1);
      RowYields(lines, hunkStart, n - 1);
      CountCPrefix(cs, more, (path, text), |cs|);
    }
  }

  lemma {:induction false} RemovedRowsAre(lines: seq<string>, hunkStart: HunkStart, path: string, text: string, n: nat)
    requires n <= |lines|
    ensures var rs := Scanned(lines, hunkStart, n).removals;
      CountR(rs, (path, text), |rs|) == RemovedRows(lines, hunkStart, path, text, n)
    decreases n
  {
    if n == 0 {
      assert lines[..0] == [];
    } else {
      var rs, more := Scanned(lines, hunkStart, n - 1).removals, Scanned(lines, hunkStart, n).removals;
      RemovedRowsAre(lines, hunkStart, path, text, n - 1);
      RowYields(lines, hunkStart, n - 1);
      CountRPrefix(rs, more, (path, text), |rs|);
    }
  }

  /** The k-th added bullet of a text is matched when at least k such bullets were removed. */
  predicate MatchedAdded(lines: seq<string>, hunkStart: HunkStart, r: nat)
    requires Added(lines, hunkStart, r)
  {
    var path, text := PathAt(lines, r), Trim(lines[r][1..]);
    AddedRows(lines, hunkStart, path, text, r) < RemovedRows(lines, hunkStart, path, text, |lines|)
  }

  predicate MatchedRemoved(lines: seq<string>, hunkStart: HunkStart, r: nat)
    requires Removed(lines, hunkStart, r)
  {
    var path, text := PathAt(lines, r), Trim(lines[r][1..]);
    RemovedRows(lines, hunkStart, path, text, r) < AddedRows(lines, hunkStart, path, text, |lines|)
  }

  lemma {:induction false} WholeScan(lines: seq<string>, hunkStart: HunkStart)
    ensures Scanned(lines, hunkStart, |lines|) == ScanAll(SCAN_START, lines, hunkStart)
  {
    assert lines[..|lines|] == lines;
  }

  lemma {:induction false} MatchedAddedIs(lines: seq<string>, hunkStart: HunkStart, r: nat)
    requires Added(lines, hunkStart, r)
    ensures var s, i := Scanned(lines, hunkStart, |lines|), |Scanned(lines, hunkStart, r).candidates|;
      i < |s.candidates| && (PairsC(s.candidates, s.removals, i) <==> MatchedAdded(lines, hunkStart, r))
  {
    var path, text, n := PathAt(lines, r), Trim(lines[r][1..]), |lines|;
    var cs, all := Scanned(lines, hunkStart, r).candidates, Scanned(lines, hunkStart, n).candidates;
    CandidateOfRow(lines, hunkStart, n, r);
    ScanGrows(lines, hunkStart, r, n);
    CountCPrefix(cs, all, (path, text), |cs|);
    AddedRowsAre(lines, hunkStart, path, text, r);
    RemovedRowsAre(lines, hunkStart, path, text, n);
  }

  lemma {:induction false} MatchedRemovedIs(lines: seq<string>, hunkStart: HunkStart, r: nat)
    requires Removed(lines, hunkStart, r)
    ensures var s, j := Scanned(lines, hunkStart, |lines|), |Scanned(lines, hunkStart, r).removals|;
      j < |s.removals| && (PairsR(s.candidates, s.removals, j) <==> MatchedRemoved(lines, hunkStart, r))
  {
    var path, text, n := PathAt(lines, r), Trim(lines[r][1..]), |lines|;
    var rs, all := Scanned(lines, hunkStart, r).removals, Scanned(lines, hunkStart, n).removals;
    RemovalOfRow(lines, hunkStart, n, r);
    ScanGrows(lines, hunkStart, r, n);
    CountRPrefix(rs, all, (path, text), |rs|);
    RemovedRowsAre(lines, hunkStart, path, text, r);
    AddedRowsAre(lines, hunkStart, path, text, n);
  }

  // ----- which bullets are new -----

  predicate UnmatchedAddedIn(lines: seq<string>, hunkStart: HunkStart, h: Hunk, q: nat) {
    Added(lines, hunkStart, q) && HunkOf(lines, hunkStart, q) == h && !MatchedAdded(lines, hunkStart, q)
  }

  predicate UnmatchedRemovedIn(lines: seq<string>, hunkStart: HunkStart, h: Hunk, q: nat) {
    Removed(lines, hunkStart, q) && HunkOf(lines, hunkStart, q) == h && !MatchedRemoved(lines, hunkStart, q)
  }

  function AddedLeft(lines: seq<string>, hunkStart: HunkStart, h: Hunk, n: nat): nat {
    Rows(n, (q: nat) => UnmatchedAddedIn(lines, hunkStart, h, q))
  }

  function RemovedLeft(lines: seq<string>, hunkStart: HunkStart, h: Hunk, n: nat): nat {
    Rows(n, (q: nat) => UnmatchedRemovedIn(lines, hunkStart, h, q))
  }

  /**
   * An added bullet whose text was not removed as well, in a hunk that adds no release heading, which the unmatched
   * removed bullets of its hunk do not account for: they are no more than the unmatched added ones above it.
   */
  predicate IsNew(lines: seq<string>, hunkStart: HunkStart, r: nat) {
    && Added(lines, hunkStart, r) && !MatchedAdded(lines, hunkStart, r)
    && (forall q :: 0 <= q < |lines| && AddsRelease(lines, hunkStart, q) ==> HunkOf(lines, hunkStart, q) != HunkOf(lines, hunkStart, r))
    && var h := HunkOf(lines, hunkStart, r);
       RemovedLeft(lines, hunkStart, h, |lines|) <= AddedLeft(lines, hunkStart, h, r)
  }

  lemma {:induction false} UnmatchedAddedRows(lines: seq<string>, hunkStart: HunkStart, h: Hunk, r: nat)
    requires r <= |lines|
    ensures |Scanned(lines, hunkStart, r).candidates| <= |Scanned(lines, hunkStart, |lines|).candidates|
    ensures UnmatchedAdditions(Scanned(lines, hunkStart, |lines|), h, |Scanned(lines, hunkStart, r).candidates|)
      == AddedLeft(lines, hunkStart, h, r)
    decreases r
  {
    ScanGrows(lines, hunkStart, r, |lines|);
    if r == 0 {
      assert lines[..0] == [];
    } else {
      UnmatchedAddedRows(lines, hunkStart, h, r - 1);
      RowYields(lines, hunkStart, r - 1);
      if Added(lines, hunkStart, r - 1) {
        MatchedAddedIs(lines, hunkStart, r - 1);
        CandidateOfRow(lines, hunkStart, |lines|, r - 1);
      }
    }
  }

  lemma {:induction false} NextRemoved(rs: seq<Removal>, flags: seq<bool>, h: Hunk, j: nat, own: bool)
    requires j < |rs| == |flags| && own == (rs[j].hunk == h && !flags[j])
    ensures UnpairedRemovals(rs, flags, h, j + 1) == UnpairedRemovals(rs, flags, h, j) + if own then 1 else 0
  {
  }

  lemma {:induction false} RemovedLeftNext(lines: seq<string>, hunkStart: HunkStart, h: Hunk, r: nat)
    ensures RemovedLeft(lines, hunkStart, h, r + 1)
      == RemovedLeft(lines, hunkStart, h, r) + if UnmatchedRemovedIn(lines, hunkStart, h, r) then 1 else 0
  {
  }

  lemma {:induction false} UnmatchedRemovedRows(lines: seq<string>, hunkStart: HunkStart, h: Hunk, r: nat)
    requires r <= |lines|
    ensures |Scanned(lines, hunkStart, r).removals| <= |Scanned(lines, hunkStart, |lines|).removals|
    ensures var s := Scanned(lines, hunkStart, |lines|);
      UnpairedRemovals(s.removals, FlagsR(s.candidates, s.removals), h, |Scanned(lines, hunkStart, r).removals|)
      == RemovedLeft(lines, hunkStart, h, r)
    decreases r
  {
    ScanGrows(lines, hunkStart, r, |lines|);
    if r == 0 {
      assert lines[..0] == [];
    } else {
      var s, j := Scanned(lines, hunkStart, |lines|), |Scanned(lines, hunkStart, r - 1).removals|;
      UnmatchedRemovedRows(lines, hunkStart, h, r - 1);
      RowYields(lines, hunkStart, r - 1);
      RemovedLeftNext(lines, hunkStart, h, r - 1);
      if Removed(lines, hunkStart, r - 1) {
        MatchedRemovedIs(lines, hunkStart, r - 1);
        RemovalOfRow(lines, hunkStart, |lines|, r - 1);
        NextRemoved(s.removals, FlagsR(s.candidates, s.removals), h, j, UnmatchedRemovedIn(lines, hunkStart, h, r - 1));
      }
    }
  }

  lemma {:induction false} NewIsPromotable(lines: seq<string>, hunkStart: HunkStart, r: nat)
    requires Added(lines, hunkStart, r)
    ensures var s, i := Scanned(lines, hunkStart, |lines|), |Scanned(lines, hunkStart, r).candidates|;
      i < |s.candidates| && (Promotable(s, i) <==> IsNew(lines, hunkStart, r))
  {
    var n, h := |lines|, HunkOf(lines, hunkStart, r);
    CandidateOfRow(lines, hunkStart, n, r);
    MatchedAddedIs(lines, hunkStart, r);
    HeadingRows(lines, hunkStart, n, h);
    UnmatchedAddedRows(lines, hunkStart, h, r);
    UnmatchedRemovedRows(lines, hunkStart, h, n);
  }

  /** A new bullet stands on this line of this file. */
  ghost predicate NewLine(lines: seq<string>, hunkStart: HunkStart, path: string, line: int) {
    exists r :: IsNew(lines, hunkStart, r) && PathAt(lines, r) == path && LineAt(lines, hunkStart, r) == line
  }

  /** What the scan takes for promotable are the lines on which the text puts a new bullet. */
  lemma {:induction false} PromotableLineIsNew(lines: seq<string>, hunkStart: HunkStart, path: string, line: int)
    ensures PromotableLine(ScanAll(SCAN_START, lines, hunkStart), path, line) <==> NewLine(lines, hunkStart, path, line)
  {
    WholeScan(lines, hunkStart);
    var s := Scanned(lines, hunkStart, |lines|);
    if PromotableLine(s, path, line) {
      var i: nat :| i < |s.candidates| && s.candidates[i].path == path && s.candidates[i].lineNumber == line && Promotable(s, i);
      var r := RowOfCandidate(lines, hunkStart, |lines|, i);
      NewIsPromotable(lines, hunkStart, r);
    }
    if NewLine(lines, hunkStart, path, line) {
      var r :| IsNew(lines, hunkStart, r) && PathAt(lines, r) == path && LineAt(lines, hunkStart, r) == line;
      NewIsPromotable(lines, hunkStart, r);
      CandidateOfRow(lines, hunkStart, |lines|, r);
    }
  }

  /** Below a file name and a header, in ordinary order, the line is the announced one plus the new file's lines in between. */
  lemma {:induction false} PlaceOf(lines: seq<string>, hunkStart: HunkStart, p: nat, h: nat, r: nat)
    requires p < h < r <= |lines| && IsName(lines[p]) && lines[p][6..] != "" && IsHeader(lines[h], hunkStart)
    requires forall q :: p < q < r ==> !IsName(lines[q]) && !IsFile(lines[q])
    requires forall q :: h < q < r ==> !IsHeader(lines[q], hunkStart)
    ensures PathAt(lines, r) == lines[p][6..] && HeaderAt(lines, hunkStart, r) == Some(h)
    ensures LineAt(lines, hunkStart, r) == hunkStart(lines[h]).value + NewFileLines(lines[h + 1..r])
    decreases r
  {
    PathBelow(lines, p, r);
    if r == h + 1 {
      assert lines[h + 1..r] == [];
    } else {
      PlaceOf(lines, hunkStart, p, h, r - 1);
      var body, n := lines[h + 1..r], r - h - 2;
      assert |body| == n + 1 && body[n] == lines[r - 1];
      assert body[..n] == lines[h + 1..r - 1];
    }
  }

  lemma {:induction false} PathBelow(lines: seq<string>, p: nat, r: nat)
    requires p < r <= |lines| && IsName(lines[p])
    requires forall q :: p < q < r ==> !IsName(lines[q]) && !IsFile(lines[q])
    ensures PathAt(lines, r) == lines[p][6..]
    decreases r
  {
    FirstLetter(lines[p]);
    if p < r - 1 {
      PathBelow(lines, p, r - 1);
    }
  }

  /** The whole selection: a line of a file is returned exactly when a new bullet stands on it. */
  method CollectPromotableLines(lines: seq<string>, hunkStart: HunkStart) returns (byPath: LinesByPath)
    ensures forall path, line :: line in LinesOf(byPath, path) <==> NewLine(lines, hunkStart, path, line)
  {
    var s := ScanDiff(lines, hunkStart);
    var pairedC, pairedR := PairUp(s.candidates, s.removals);
    var counts := CountRemovals(s.removals, pairedR);
    byPath := SelectLines(s.candidates, pairedC, s.headings, counts);
    forall path, line ensures line in LinesOf(byPath, path) <==> NewLine(lines, hunkStart, path, line) {
      KeptIsPromotable(s, counts, path, line);
      PromotableLineIsNew(lines, hunkStart, path, line);
    }
  }
}
