/** Reading a diff: its added and removed bullets, with their lines in the new file, and the promotable ones per path. */
module ChangelogDiff {
  import opened Options
  import opened ChangelogText
  import opened ChangelogPairing

  // The first new-file line that a hunk header announces, for the lines that are one.
  type HunkStart = string -> Option<int>

  datatype Scan = Scan(
    path: string,
    newLine: int,
    hunkIndex: int,
    candidates: seq<Candidate>,
    removals: seq<Removal>,
    headings: set<Hunk>)

  const SCAN_START := Scan("", 0, -1, [], [], {})

  function ScanMarked(s: Scan, raw: string): Scan
    requires raw != []
  {
    var text, hunk := raw[1..], (s.path, s.hunkIndex);
    if raw[0] == '+' then
      s.(headings := if StartsWith(raw, "+## [") then s.headings + {hunk} else s.headings,
         candidates := if IsBullet(text) then s.candidates + [Candidate(s.path, s.newLine, text, hunk)] else s.candidates,
         newLine := s.newLine + 1)
    else if raw[0] == '-' then
      s.(removals := if IsBullet(text) then s.removals + [Removal(s.path, text, hunk)] else s.removals)
    else if raw[0] == ' ' then s.(newLine := s.newLine + 1)
    else s
  }

  function ScanLine(s: Scan, raw: string, hunkStart: HunkStart): Scan {
    if StartsWith(raw, "+++ b/") then s.(path := raw[6..])
    else if StartsWith(raw, "diff --git ") then s.(path := "", hunkIndex := -1)
    else if hunkStart(raw).Some? then s.(newLine := hunkStart(raw).value, hunkIndex := s.hunkIndex + 1)
    else if s.path == "" || s.hunkIndex < 0 || raw == [] then s
    else ScanMarked(s, raw)
  }

  function ScanAll(s: Scan, lines: seq<string>, hunkStart: HunkStart): Scan {
    if lines == [] then s else ScanLine(ScanAll(s, lines[..|lines| - 1], hunkStart), lines[|lines| - 1], hunkStart)
  }

  // ----- what a hunk contributes -----

  /** A line of a hunk that cannot be taken for a header. */
  predicate IsBodyLine(raw: string, hunkStart: HunkStart) {
    !StartsWith(raw, "+++ b/") && !StartsWith(raw, "diff --git ") && hunkStart(raw).None?
  }

  /** How many of these lines are in the new file. */
  function NewFileLines(body: seq<string>): nat {
    if body == [] then 0
    else
      var last := body[|body| - 1];
      NewFileLines(body[..|body| - 1]) + if last != [] && (last[0] == '+' || last[0] == ' ') then 1 else 0
  }

  predicate IsAddedBullet(raw: string) {
    raw != [] && raw[0] == '+' && IsBullet(raw[1..])
  }

  predicate IsRemovedBullet(raw: string) {
    raw != [] && raw[0] == '-' && IsBullet(raw[1..])
  }

  function AddedBullets(body: seq<string>, path: string, hunk: Hunk, start: int): seq<Candidate> {
    if body == [] then []
    else
      var rest, last := body[..|body| - 1], body[|body| - 1];
      AddedBullets(rest, path, hunk, start)
      + if IsAddedBullet(last) then [Candidate(path, start + NewFileLines(rest), last[1..], hunk)] else []
  }

  function RemovedBullets(body: seq<string>, path: string, hunk: Hunk): seq<Removal> {
    if body == [] then []
    else
      var rest, last := body[..|body| - 1], body[|body| - 1];
      RemovedBullets(rest, path, hunk) + if IsRemovedBullet(last) then [Removal(path, last[1..], hunk)] else []
  }

  ghost predicate AddsHeading(body: seq<string>)
  {
    exists i :: 0 <= i < |body| && StartsWith(body[i], "+## [")
  }

  ghost function Yielded(s: Scan, body: seq<string>): Scan {
    var hunk := (s.path, s.hunkIndex);
    s.(newLine := s.newLine + NewFileLines(body),
       candidates := s.candidates + AddedBullets(body, s.path, hunk, s.newLine),
       removals := s.removals + RemovedBullets(body, s.path, hunk),
       headings := if AddsHeading(body) then s.headings + {hunk} else s.headings)
  }

  /** A hunk yields its added bullets at their lines of the new file, its removed bullets, and whether it adds a release. */
  lemma {:induction false} HunkYields(s: Scan, body: seq<string>, hunkStart: HunkStart)
    requires s.path != "" && s.hunkIndex >= 0 && forall i :: 0 <= i < |body| ==> IsBodyLine(body[i], hunkStart)
    ensures ScanAll(s, body, hunkStart) == Yielded(s, body)
    decreases |body|
  {
    if body != [] {
      var rest, last := body[..|body| - 1], body[|body| - 1];
      HunkYields(s, rest, hunkStart);
      var before := Yielded(s, rest);
      calc {
        ScanAll(s, body, hunkStart);
        ScanLine(before, last, hunkStart);
        { BodyLineScanned(before, last, hunkStart); }
        if last == [] then before else ScanMarked(before, last);
        { YieldNext(s, rest, last); }
        Yielded(s, rest + [last]);
        { assert body == rest + [last]; }
        Yielded(s, body);
      }
    }
  }

  lemma {:induction false} BodyLineScanned(s: Scan, raw: string, hunkStart: HunkStart)
    requires s.path != "" && s.hunkIndex >= 0 && IsBodyLine(raw, hunkStart)
    ensures ScanLine(s, raw, hunkStart) == if raw == [] then s else ScanMarked(s, raw)
  {
  }

  lemma {:induction false} YieldNext(s: Scan, rest: seq<string>, last: string)
    ensures (if last == [] then Yielded(s, rest) else ScanMarked(Yielded(s, rest), last)) == Yielded(s, rest + [last])
  {
    var body := rest + [last];
    assert body[..|rest|] == rest;
    HeadingNext(rest, last);
  }

  lemma {:induction false} HeadingNext(rest: seq<string>, last: string)
    ensures AddsHeading(rest + [last]) <==> AddsHeading(rest) || StartsWith(last, "+## [")
    ensures StartsWith(last, "+## [") ==> last[0] == '+'
  {
    var body := rest + [last];
    assert body[|rest|] == last && forall i :: 0 <= i < |rest| ==> body[i] == rest[i];
    if StartsWith(last, "+## [") {
      assert last[0] == last[..5][0];
    }
  }

  // ----- the promotable lines -----

  method ScanDiff(lines: seq<string>, hunkStart: HunkStart) returns (s: Scan)
    ensures s == ScanAll(SCAN_START, lines, hunkStart)
  {
    s := SCAN_START;
    for i := 0 to |lines|
      invariant s == ScanAll(SCAN_START, lines[..i], hunkStart)
    {
      assert lines[..i + 1][..i] == lines[..i];
      s := ScanLine(s, lines[i], hunkStart);
    }
    assert lines[..|lines|] == lines;
  }

  /** How many removed bullets of this hunk found no added one. */
  function UnmatchedRemovals(s: Scan, h: Hunk): nat {
    UnpairedRemovals(s.removals, FlagsR(s.candidates, s.removals), h, |s.removals|)
  }

  function UnmatchedAdditions(s: Scan, h: Hunk, n: nat): nat
    requires n <= |s.candidates|
  {
    Unpaired(s.candidates, FlagsC(s.candidates, s.removals), h, n)
  }

  /**
   * The i-th added bullet is new: unmatched, in no hunk that adds a release heading, and the unmatched removals of its
   * hunk are used up by the unmatched additions before it.
   */
  predicate Promotable(s: Scan, i: nat)
    requires i < |s.candidates|
  {
    var h := s.candidates[i].hunk;
    !PairsC(s.candidates, s.removals, i) && h !in s.headings && UnmatchedRemovals(s, h) <= UnmatchedAdditions(s, h, i)
  }

  ghost predicate PromotableLine(s: Scan, path: string, line: int) {
    exists i :: 0 <= i < |s.candidates| && s.candidates[i].path == path && s.candidates[i].lineNumber == line && Promotable(s, i)
  }

  lemma {:induction false} KeptIsPromotable(s: Scan, counts: Counts, path: string, line: int)
    requires forall h :: Count(counts, h) == UnmatchedRemovals(s, h)
    ensures KeptLine(s.candidates, FlagsC(s.candidates, s.removals), s.headings, counts, |s.candidates|, path, line)
      == PromotableLine(s, path, line)
  {
    forall i: nat | i < |s.candidates|
      ensures Keeps(s.candidates, FlagsC(s.candidates, s.removals), s.headings, counts, i) == Promotable(s, i)
    {
    }
  }
}
