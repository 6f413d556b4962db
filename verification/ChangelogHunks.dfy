/** Whole diffs: how many lines of each hunk are promotable. */
module ChangelogHunks {
  import opened ChangelogText
  import opened ChangelogPairing
  import opened ChangelogDiff
  import opened ChangelogRows

  // ----- the bullets of one hunk stand on different lines -----

  /** Of two added bullets of hunk `h` the later one stands further down. */
  ghost predicate LinesIncrease(cs: seq<Candidate>, h: Hunk) {
    forall i, j :: 0 <= i < j < |cs| && cs[i].hunk == h && cs[j].hunk == h ==> cs[i].lineNumber < cs[j].lineNumber
  }

  /** No file is named twice; everything else in the text is free. */
  predicate NamesOnce(lines: seq<string>) {
    forall i, j :: 0 <= i < j < |lines| && IsName(lines[i]) && lines[i] == lines[j] ==> lines[i][6..] == ""
  }

  /** The files named in the text. */
  function Named(lines: seq<string>): set<string> {
    if lines == [] then {}
    else
      var last := lines[|lines| - 1];
      Named(lines[..|lines| - 1]) + if IsName(last) then {last[6..]} else {}
  }

  /** The bullets read so far are of these files, in the current file of hunks up to the current, and there above its line. */
  ghost predicate ReadOk(s: Scan, paths: set<string>) {
    && (forall i :: 0 <= i < |s.candidates| ==> CandidateOk(s, paths, s.candidates[i]))
    && forall h :: LinesIncrease(s.candidates, h)
  }

  predicate CandidateOk(s: Scan, paths: set<string>, c: Candidate) {
    && c.path == c.hunk.0 && c.path != "" && c.path in paths
    && (c.path == s.path ==> c.hunk.1 <= s.hunkIndex)
    && (c.hunk == (s.path, s.hunkIndex) ==> c.lineNumber < s.newLine)
  }

  /** Moving on without a bullet. */
  lemma {:induction false} MovedOk(s: Scan, paths: set<string>, t: Scan, more: set<string>)
    requires ReadOk(s, paths) && t.candidates == s.candidates && paths <= more
    requires t.path == "" || t.path !in paths || (t.path == s.path && s.hunkIndex < t.hunkIndex)
      || (t.path == s.path && t.hunkIndex == s.hunkIndex && s.newLine <= t.newLine)
    ensures ReadOk(t, more)
  {
    forall i | 0 <= i < |t.candidates| ensures CandidateOk(t, more, t.candidates[i]) {
      assert CandidateOk(s, paths, s.candidates[i]);
    }
  }

  /** One more bullet, on the current line. */
  lemma {:induction false} BulletOk(s: Scan, paths: set<string>, t: Scan, c: Candidate)
    requires ReadOk(s, paths) && s.path != "" && s.path in paths
    requires c.path == s.path && c.hunk == (s.path, s.hunkIndex) && c.lineNumber == s.newLine
    requires t.candidates == s.candidates + [c] && t.path == s.path && t.hunkIndex == s.hunkIndex && t.newLine == s.newLine + 1
    ensures ReadOk(t, paths)
  {
    var n := |s.candidates|;
    forall i | 0 <= i < |t.candidates| ensures CandidateOk(t, paths, t.candidates[i]) {
      assert i < n ==> CandidateOk(s, paths, s.candidates[i]);
    }
    forall h ensures LinesIncrease(t.candidates, h) {
      assert LinesIncrease(s.candidates, h);
      forall i, j | 0 <= i < j < |t.candidates| && t.candidates[i].hunk == h && t.candidates[j].hunk == h
        ensures t.candidates[i].lineNumber < t.candidates[j].lineNumber
      {
        assert i < n && CandidateOk(s, paths, s.candidates[i]);
      }
    }
  }

  lemma {:induction false} MarkedOk(s: Scan, paths: set<string>, raw: string)
    requires ReadOk(s, paths) && s.path != "" && s.path in paths && raw != []
    ensures ReadOk(ScanMarked(s, raw), paths)
  {
    var t := ScanMarked(s, raw);
    if raw[0] == '+' && IsBullet(raw[1..]) {
      BulletOk(s, paths, t, Candidate(s.path, s.newLine, raw[1..], (s.path, s.hunkIndex)));
    } else {
      MovedOk(s, paths, t, paths);
    }
  }

  lemma {:induction false} LineOk(s: Scan, paths: set<string>, raw: string, hunkStart: HunkStart)
    requires ReadOk(s, paths) && (s.path != "" ==> s.path in paths)
    requires IsName(raw) && raw[6..] in paths ==> raw[6..] == ""
    ensures var t, more := ScanLine(s, raw, hunkStart), paths + if IsName(raw) then {raw[6..]} else {};
      ReadOk(t, more) && (t.path != "" ==> t.path in more)
  {
    var t, more := ScanLine(s, raw, hunkStart), paths + if IsName(raw) then {raw[6..]} else {};
    if !IsName(raw) && !StartsWith(raw, "diff --git ") && hunkStart(raw).None? && s.path != "" && s.hunkIndex >= 0 && raw != [] {
      MarkedOk(s, paths, raw);
    } else {
      MovedOk(s, paths, t, more);
    }
  }

  lemma {:induction false} NamedHas(lines: seq<string>, path: string)
    requires path in Named(lines)
    ensures exists i :: 0 <= i < |lines| && IsName(lines[i]) && lines[i][6..] == path
    decreases |lines|
  {
    var n := |lines| - 1;
    if !(IsName(lines[n]) && lines[n][6..] == path) {
      NamedHas(lines[..n], path);
      var i :| 0 <= i < n && IsName(lines[..n][i]) && lines[..n][i][6..] == path;
      assert lines[i] == lines[..n][i];
    }
  }

  lemma {:induction false} SameName(a: string, b: string)
    requires IsName(a) && IsName(b) && a[6..] == b[6..]
    ensures a == b
  {
    assert a == a[..6] + a[6..] && b == b[..6] + b[6..];
  }

  /** In any text that names no file twice, the added bullets of every hunk stand on different lines. */
  lemma {:induction false} DiffRead(lines: seq<string>, hunkStart: HunkStart)
    requires NamesOnce(lines)
    ensures var s := ScanAll(SCAN_START, lines, hunkStart);
      ReadOk(s, Named(lines)) && (s.path != "" ==> s.path in Named(lines))
    decreases |lines|
  {
    if lines != [] {
      var n := |lines| - 1;
      var before, raw := lines[..n], lines[n];
      DiffRead(before, hunkStart);
      if IsName(raw) && raw[6..] in Named(before) {
        NamedHas(before, raw[6..]);
        var i :| 0 <= i < n && IsName(before[i]) && before[i][6..] == raw[6..];
        SameName(before[i], raw);
        assert lines[i] == before[i];
      }
      LineOk(ScanAll(SCAN_START, before, hunkStart), Named(before), raw, hunkStart);
    }
  }

  // ----- how many lines -----

  /** The lines with a mark, among the first `n`. */
  function MarkedLines(marks: seq<bool>, lines: seq<int>, n: nat): set<int>
    requires n <= |marks| == |lines|
  {
    if n == 0 then {} else MarkedLines(marks, lines, n - 1) + if marks[n - 1] then {lines[n - 1]} else {}
  }

  function Marks(marks: seq<bool>, n: nat): nat
    requires n <= |marks|
  {
    if n == 0 then 0 else Marks(marks, n - 1) + if marks[n - 1] then 1 else 0
  }

  lemma {:induction false} InMarked(marks: seq<bool>, lines: seq<int>, n: nat, x: int)
    requires n <= |marks| == |lines|
    ensures x in MarkedLines(marks, lines, n) <==> exists i :: 0 <= i < n && marks[i] && lines[i] == x
    decreases n
  {
    if n > 0 {
      InMarked(marks, lines, n - 1, x);
    }
  }

  lemma {:induction false} MarkedSize(marks: seq<bool>, lines: seq<int>, n: nat)
    requires n <= |marks| == |lines|
    requires forall i, j :: 0 <= i < j < n && marks[i] && marks[j] ==> lines[i] != lines[j]
    ensures |MarkedLines(marks, lines, n)| == Marks(marks, n)
    decreases n
  {
    if n > 0 {
      MarkedSize(marks, lines, n - 1);
      if marks[n - 1] {
        InMarked(marks, lines, n - 1, lines[n - 1]);
        assert lines[n - 1] !in MarkedLines(marks, lines, n - 1);
      }
    }
  }

  /** Which candidates are promotable ones of hunk `h`. */
  function NewIn(s: Scan, h: Hunk): (marks: seq<bool>)
    ensures |marks| == |s.candidates|
    ensures forall i :: 0 <= i < |marks| ==> marks[i] == (s.candidates[i].hunk == h && Promotable(s, i))
  {
    seq(|s.candidates|, i requires 0 <= i < |s.candidates| => s.candidates[i].hunk == h && Promotable(s, i))
  }

  function LineNumbers(cs: seq<Candidate>): (lines: seq<int>)
    ensures |lines| == |cs| && forall i :: 0 <= i < |cs| ==> lines[i] == cs[i].lineNumber
  {
    seq(|cs|, i requires 0 <= i < |cs| => cs[i].lineNumber)
  }

  /** The promotable lines of one hunk. */
  function PromotableIn(s: Scan, h: Hunk): set<int> {
    MarkedLines(NewIn(s, h), LineNumbers(s.candidates), |s.candidates|)
  }

  lemma {:induction false} KeptAreMarks(cs: seq<Candidate>, pairedC: seq<bool>, headings: set<Hunk>, counts: Counts, h: Hunk,
    marks: seq<bool>, n: nat)
    requires n <= |cs| == |pairedC| == |marks|
    requires forall i {:trigger marks[i]} :: 0 <= i < |cs| ==> marks[i] == (cs[i].hunk == h && Keeps(cs, pairedC, headings, counts, i))
    ensures KeptIn(cs, pairedC, headings, counts, h, n) == Marks(marks, n)
    decreases n
  {
    if n > 0 {
      KeptAreMarks(cs, pairedC, headings, counts, h, marks, n - 1);
      assert marks[n - 1] == (cs[n - 1].hunk == h && Keeps(cs, pairedC, headings, counts, n - 1));
    }
  }

  lemma {:induction false} KeptIsNew(s: Scan, h: Hunk, i: nat)
    requires i < |s.candidates|
    ensures (s.candidates[i].hunk == h
        && Keeps(s.candidates, FlagsC(s.candidates, s.removals), s.headings, map[h := UnmatchedRemovals(s, h)], i))
      == NewIn(s, h)[i]
  {
  }

  lemma {:induction false} PromotableSize(s: Scan, h: Hunk)
    requires LinesIncrease(s.candidates, h)
    ensures |PromotableIn(s, h)|
      == if h in s.headings then 0 else Monus(UnmatchedAdditions(s, h, |s.candidates|), UnmatchedRemovals(s, h))
  {
    var marks, lines, n := NewIn(s, h), LineNumbers(s.candidates), |s.candidates|;
    MarksDiffer(s, h, marks, lines);
    MarkedSize(marks, lines, n);
    KeptHere(s, h, marks);
    KeptIsSurplus(s.candidates, FlagsC(s.candidates, s.removals), s.headings, map[h := UnmatchedRemovals(s, h)], h, n);
  }

  lemma {:induction false} KeptHere(s: Scan, h: Hunk, marks: seq<bool>)
    requires marks == NewIn(s, h)
    ensures KeptIn(s.candidates, FlagsC(s.candidates, s.removals), s.headings, map[h := UnmatchedRemovals(s, h)], h, |s.candidates|)
      == Marks(marks, |s.candidates|)
  {
    var pairedC, counts: Counts := FlagsC(s.candidates, s.removals), map[h := UnmatchedRemovals(s, h)];
    forall i | 0 <= i < |s.candidates|
      ensures marks[i] == (s.candidates[i].hunk == h && Keeps(s.candidates, pairedC, s.headings, counts, i))
    {
      KeptIsNew(s, h, i);
    }
    KeptAreMarks(s.candidates, pairedC, s.headings, counts, h, marks, |s.candidates|);
  }

  lemma {:induction false} MarksDiffer(s: Scan, h: Hunk, marks: seq<bool>, lines: seq<int>)
    requires LinesIncrease(s.candidates, h) && marks == NewIn(s, h) && lines == LineNumbers(s.candidates)
    ensures forall i, j :: 0 <= i < j < |marks| && marks[i] && marks[j] ==> lines[i] != lines[j]
  {
  }

  /**
   * In any text that names no file twice, the lines promotable in a hunk are as many as its unmatched additions exceed its
   * unmatched removals, none where the hunk adds a release; and the promotable lines are those of the hunks.
   */
  lemma {:induction false} HunkSurplus(lines: seq<string>, hunkStart: HunkStart, h: Hunk)
    requires NamesOnce(lines)
    ensures var s := ScanAll(SCAN_START, lines, hunkStart);
      |PromotableIn(s, h)|
      == if h in s.headings then 0 else Monus(UnmatchedAdditions(s, h, |s.candidates|), UnmatchedRemovals(s, h))
    ensures var s := ScanAll(SCAN_START, lines, hunkStart);
      forall path, line :: PromotableLine(s, path, line) <==> InSomeHunk(s, path, line)
  {
    var s := ScanAll(SCAN_START, lines, hunkStart);
    DiffRead(lines, hunkStart);
    PromotableSize(s, h);
    forall path, line ensures PromotableLine(s, path, line) <==> InSomeHunk(s, path, line) {
      LinesOfHunks(s, Named(lines), path, line);
    }
  }

  ghost predicate InSomeHunk(s: Scan, path: string, line: int) {
    exists index: int :: line in PromotableIn(s, (path, index))
  }

  lemma {:induction false} LinesOfHunks(s: Scan, paths: set<string>, path: string, line: int)
    requires ReadOk(s, paths)
    ensures PromotableLine(s, path, line) <==> InSomeHunk(s, path, line)
  {
    assert forall i :: 0 <= i < |s.candidates| ==> CandidateOk(s, paths, s.candidates[i]);
    if PromotableLine(s, path, line) {
      var i :| 0 <= i < |s.candidates| && s.candidates[i].path == path && s.candidates[i].lineNumber == line && Promotable(s, i);
      var h := s.candidates[i].hunk;
      InMarked(NewIn(s, h), LineNumbers(s.candidates), |s.candidates|, line);
      assert NewIn(s, h)[i] && h == (path, h.1);
    }
    if InSomeHunk(s, path, line) {
      var index: int :| line in PromotableIn(s, (path, index));
      InMarked(NewIn(s, (path, index)), LineNumbers(s.candidates), |s.candidates|, line);
    }
  }
}
