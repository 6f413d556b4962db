/** Changelog documents: parsing lines into releases and subsections, and rendering them back. */
module ChangelogDocument {
  import opened Collections
  import opened ChangelogText
  import opened ChangelogLines

  datatype NumberedLine = NumberedLine(text: string, lineNumber: nat)

  datatype Subsection = Subsection(title: string, lines: seq<NumberedLine>)

  datatype Section = Section(heading: string, title: string, leading: seq<NumberedLine>, subsections: seq<Subsection>)

  datatype Document = Document(prefix: seq<NumberedLine>, sections: seq<Section>)

  function Texts(lines: seq<NumberedLine>): (texts: seq<string>)
    ensures |texts| == |lines|
  {
    seq(|lines|, i requires 0 <= i < |lines| => lines[i].text)
  }

  function Number(texts: seq<string>): (lines: seq<NumberedLine>)
    ensures |lines| == |texts|
  {
    seq(|texts|, i requires 0 <= i < |texts| => NumberedLine(texts[i], i + 1))
  }

  // ----- parsing -----

  /** The first line from `i` on that is a release heading. */
  function NextRelease(lines: seq<NumberedLine>, i: nat): (k: nat)
    requires i <= |lines|
    ensures i <= k <= |lines| && (k < |lines| ==> IsReleaseHeading(lines[k].text))
    ensures forall j :: i <= j < k ==> !IsReleaseHeading(lines[j].text)
    decreases |lines| - i
  {
    if i == |lines| || IsReleaseHeading(lines[i].text) then i else NextRelease(lines, i + 1)
  }

  function NextSub(lines: seq<NumberedLine>, i: nat): (k: nat)
    requires i <= |lines|
    ensures i <= k <= |lines| && (k < |lines| ==> IsSubHeading(lines[k].text))
    ensures forall j :: i <= j < k ==> !IsSubHeading(lines[j].text)
    decreases |lines| - i
  {
    if i == |lines| || IsSubHeading(lines[i].text) then i else NextSub(lines, i + 1)
  }

  function Subsections(lines: seq<NumberedLine>): seq<Subsection>
    requires lines != [] ==> IsSubHeading(lines[0].text)
    decreases |lines|
  {
    if lines == [] then []
    else
      var k := NextSub(lines, 1);
      [Subsection(SubTitle(lines[0].text), lines[1..k])] + Subsections(lines[k..])
  }

  function SectionOf(heading: string, body: seq<NumberedLine>): Section
    requires IsReleaseHeading(heading)
  {
    var k := NextSub(body, 0);
    Section(heading, ReleaseTitle(heading), body[..k], Subsections(body[k..]))
  }

  function Sections(lines: seq<NumberedLine>): seq<Section>
    requires lines != [] ==> IsReleaseHeading(lines[0].text)
    decreases |lines|
  {
    if lines == [] then []
    else
      var k := NextRelease(lines, 1);
      [SectionOf(lines[0].text, lines[1..k])] + Sections(lines[k..])
  }

  function Parsed(lines: seq<NumberedLine>): Document {
    var k := NextRelease(lines, 0);
    Document(lines[..k], Sections(lines[k..]))
  }

  lemma {:induction false} NextSubShift(lines: seq<NumberedLine>, start: nat, i: nat)
    requires start <= i <= |lines|
    ensures NextSub(lines[start..], i - start) == NextSub(lines, i) - start
    decreases |lines| - i
  {
    if i < |lines| && !IsSubHeading(lines[i].text) {
      NextSubShift(lines, start, i + 1);
    }
  }

  lemma {:induction false} NextReleaseShift(lines: seq<NumberedLine>, start: nat, i: nat)
    requires start <= i <= |lines|
    ensures NextRelease(lines[start..], i - start) == NextRelease(lines, i) - start
    decreases |lines| - i
  {
    if i < |lines| && !IsReleaseHeading(lines[i].text) {
      NextReleaseShift(lines, start, i + 1);
    }
  }

  lemma {:induction false} SubsectionsCons(lines: seq<NumberedLine>)
    requires lines != [] && IsSubHeading(lines[0].text)
    ensures var k := NextSub(lines, 1);
      Subsections(lines) == [Subsection(SubTitle(lines[0].text), lines[1..k])] + Subsections(lines[k..])
  {
  }

  lemma {:induction false} SectionsCons(lines: seq<NumberedLine>)
    requires lines != [] && IsReleaseHeading(lines[0].text)
    ensures var k := NextRelease(lines, 1);
      Sections(lines) == [SectionOf(lines[0].text, lines[1..k])] + Sections(lines[k..])
  {
  }

  lemma {:induction false} SubsectionsNext(lines: seq<NumberedLine>, start: nat)
    requires start < |lines| && IsSubHeading(lines[start].text)
    ensures var k := NextSub(lines, start + 1);
      Subsections(lines[start..])
      == [Subsection(SubTitle(lines[start].text), lines[start + 1..k])] + Subsections(lines[k..])
  {
    NextSubShift(lines, start, start + 1);
    SubsectionsFrom(lines, start, NextSub(lines, start + 1));
  }

  lemma {:induction false} SubsectionsFrom(lines: seq<NumberedLine>, start: nat, k: nat)
    requires start < k <= |lines| && IsSubHeading(lines[start].text) && NextSub(lines[start..], 1) == k - start
    requires k < |lines| ==> IsSubHeading(lines[k].text)
    ensures Subsections(lines[start..])
      == [Subsection(SubTitle(lines[start].text), lines[start + 1..k])] + Subsections(lines[k..])
  {
    Slices(lines, start, k);
  }

  lemma {:induction false} Slices<T>(s: seq<T>, start: nat, k: nat)
    requires start < k <= |s|
    ensures s[start..][1..k - start] == s[start + 1..k] && s[start..][k - start..] == s[k..] && s[start..][0] == s[start]
  {
  }

  lemma {:induction false} SectionsNext(lines: seq<NumberedLine>, start: nat)
    requires start < |lines| && IsReleaseHeading(lines[start].text)
    ensures var k := NextRelease(lines, start + 1);
      Sections(lines[start..]) == [SectionOf(lines[start].text, lines[start + 1..k])] + Sections(lines[k..])
  {
    NextReleaseShift(lines, start, start + 1);
    SectionsCons(lines[start..]);
    Slices(lines, start, NextRelease(lines, start + 1));
  }

  /** Collects lines up to the next subsection heading. */
  method TakeToSub(lines: seq<NumberedLine>, start: nat) returns (taken: seq<NumberedLine>, index: nat)
    requires start <= |lines|
    ensures index == NextSub(lines, start) && taken == lines[start..index]
  {
    taken, index := [], start;
    while index < |lines| && !IsSubHeading(lines[index].text)
      invariant start <= index <= |lines| && taken == lines[start..index] && NextSub(lines, start) == NextSub(lines, index)
    {
      taken := taken + [lines[index]];
      index := index + 1;
    }
  }

  /** Collects lines up to the next release heading. */
  method TakeToRelease(lines: seq<NumberedLine>, start: nat) returns (taken: seq<NumberedLine>, index: nat)
    requires start <= |lines|
    ensures index == NextRelease(lines, start) && taken == lines[start..index]
  {
    taken, index := [], start;
    while index < |lines| && !IsReleaseHeading(lines[index].text)
      invariant start <= index <= |lines| && taken == lines[start..index] && NextRelease(lines, start) == NextRelease(lines, index)
    {
      taken := taken + [lines[index]];
      index := index + 1;
    }
  }

  /** `done` are the subsections between the first heading and `index`. */
  ghost predicate SubsectionsDone(body: seq<NumberedLine>, first: nat, index: nat, done: seq<Subsection>) {
    && first <= index <= |body|
    && (first < |body| ==> IsSubHeading(body[first].text))
    && (index < |body| ==> IsSubHeading(body[index].text))
    && done + Subsections(body[index..]) == Subsections(body[first..])
  }

  lemma {:induction false} SubsectionDone(body: seq<NumberedLine>, first: nat, index: nat, done: seq<Subsection>)
    requires SubsectionsDone(body, first, index, done) && index < |body|
    ensures var k := NextSub(body, index + 1);
      SubsectionsDone(body, first, k, done + [Subsection(SubTitle(body[index].text), body[index + 1..k])])
  {
    SubsectionsNext(body, index);
  }

  method ParseReleaseSection(heading: string, body: seq<NumberedLine>) returns (s: Section)
    requires IsReleaseHeading(heading)
    ensures s == SectionOf(heading, body)
  {
    var leading, index := TakeToSub(body, 0);
    ghost var first := index;
    var subsections: seq<Subsection> := [];
    while index < |body|
      invariant SubsectionsDone(body, first, index, subsections)
      decreases |body| - index
    {
      SubsectionDone(body, first, index, subsections);
      var title := SubTitle(body[index].text);
      var lines;
      lines, index := TakeToSub(body, index + 1);
      subsections := subsections + [Subsection(title, lines)];
    }
    s := Section(heading, ReleaseTitle(heading), leading, subsections);
  }

  ghost predicate SectionsDone(lines: seq<NumberedLine>, first: nat, index: nat, done: seq<Section>) {
    && first <= index <= |lines|
    && (first < |lines| ==> IsReleaseHeading(lines[first].text))
    && (index < |lines| ==> IsReleaseHeading(lines[index].text))
    && done + Sections(lines[index..]) == Sections(lines[first..])
  }

  lemma {:induction false} SectionDone(lines: seq<NumberedLine>, first: nat, index: nat, done: seq<Section>)
    requires SectionsDone(lines, first, index, done) && index < |lines|
    ensures var k := NextRelease(lines, index + 1);
      SectionsDone(lines, first, k, done + [SectionOf(lines[index].text, lines[index + 1..k])])
  {
    SectionsNext(lines, index);
    var k := NextRelease(lines, index + 1);
    AssocOne(done, SectionOf(lines[index].text, lines[index + 1..k]), Sections(lines[k..]));
  }

  method ParseLines(lines: seq<NumberedLine>) returns (d: Document)
    ensures d == Parsed(lines)
  {
    var prefix, index := TakeToRelease(lines, 0);
    ghost var first := index;
    var sections: seq<Section> := [];
    assert SectionsDone(lines, first, index, []);
    while index < |lines|
      invariant SectionsDone(lines, first, index, sections)
      decreases |lines| - index
    {
      SectionDone(lines, first, index, sections);
      var heading := lines[index].text;
      var body;
      body, index := TakeToRelease(lines, index + 1);
      var section := ParseReleaseSection(heading, body);
      sections := sections + [section];
    }
    assert sections == Sections(lines[first..]) by {
      assert lines[|lines|..] == [];
    }
    d := Document(prefix, sections);
  }

  method ParseChangelog(content: string) returns (d: Document)
    ensures d == Parsed(Number(SplitContent(content)))
  {
    d := ParseLines(Number(SplitContent(content)));
  }

  // ----- blank lines -----

  function TrimFront(lines: seq<string>): (r: seq<string>)
    ensures r == [] || !IsBlank(r[0])
    ensures |r| <= |lines| && r == lines[|lines| - |r|..]
  {
    if lines != [] && IsBlank(lines[0]) then TrimFront(lines[1..]) else lines
  }

  function TrimBack(lines: seq<string>): (r: seq<string>)
    ensures r == [] || !IsBlank(r[|r| - 1])
    ensures |r| <= |lines| && r == lines[..|r|]
  {
    if lines != [] && IsBlank(lines[|lines| - 1]) then TrimBack(lines[..|lines| - 1]) else lines
  }

  /** Without the blank lines at both ends. */
  function TrimBlank(lines: seq<string>): seq<string> {
    TrimBack(TrimFront(lines))
  }

  lemma {:induction false} TrimFrontAt(lines: seq<string>, start: nat)
    requires start <= |lines| && forall i :: 0 <= i < start ==> IsBlank(lines[i])
    requires start < |lines| ==> !IsBlank(lines[start])
    ensures TrimFront(lines) == lines[start..]
    decreases start
  {
    if start > 0 {
      TrimFrontAt(lines[1..], start - 1);
    }
  }

  lemma {:induction false} TrimBackAt(lines: seq<string>, end: nat)
    requires end <= |lines| && forall i :: end <= i < |lines| ==> IsBlank(lines[i])
    requires end > 0 ==> !IsBlank(lines[end - 1])
    ensures TrimBack(lines) == lines[..end]
    decreases |lines|
  {
    if end < |lines| {
      TrimBackAt(lines[..|lines| - 1], end);
    }
  }

  method TrimBlankLines(lines: seq<string>) returns (r: seq<string>)
    ensures r == TrimBlank(lines)
  {
    var start, end := 0, |lines|;
    while start < end && IsBlank(lines[start])
      invariant 0 <= start <= end && forall i :: 0 <= i < start ==> IsBlank(lines[i])
    {
      start := start + 1;
    }
    while end > start && IsBlank(lines[end - 1])
      invariant start <= end <= |lines| && forall i :: end <= i < |lines| ==> IsBlank(lines[i])
    {
      end := end - 1;
    }
    r := lines[start..end];
    TrimmedAt(lines, start, end);
  }

  lemma {:induction false} TrimmedAt(lines: seq<string>, start: nat, end: nat)
    requires start <= end <= |lines|
    requires forall i :: 0 <= i < start ==> IsBlank(lines[i])
    requires forall i :: end <= i < |lines| ==> IsBlank(lines[i])
    requires start < end ==> !IsBlank(lines[start]) && !IsBlank(lines[end - 1])
    ensures TrimBlank(lines) == lines[start..end]
  {
    if start == end {
      TrimFrontAt(lines, |lines|);
    } else {
      BlankTail(lines, start, end);
      TrimmedInside(lines, start, end, lines[start..]);
    }
  }

  lemma {:induction false} TrimmedInside(lines: seq<string>, start: nat, end: nat, rest: seq<string>)
    requires start < end <= |lines| && rest == lines[start..] && !IsBlank(lines[start])
    requires forall i :: 0 <= i < start ==> IsBlank(lines[i])
    requires !IsBlank(rest[end - start - 1]) && forall i :: end - start <= i < |rest| ==> IsBlank(rest[i])
    ensures TrimBlank(lines) == lines[start..end]
  {
    calc {
      TrimBlank(lines);
    == { TrimFrontAt(lines, start); }
      TrimBack(rest);
    == { TrimBackAt(rest, end - start); }
      rest[..end - start];
    ==
      lines[start..end];
    }
  }

  lemma {:induction false} BlankTail(lines: seq<string>, start: nat, end: nat)
    requires start < end <= |lines| && !IsBlank(lines[end - 1])
    requires forall i :: end <= i < |lines| ==> IsBlank(lines[i])
    ensures forall i :: end - start <= i < |lines[start..]| ==> IsBlank(lines[start..][i])
    ensures !IsBlank(lines[start..][end - start - 1])
  {
    forall i | end - start <= i < |lines[start..]| ensures IsBlank(lines[start..][i]) {
      assert lines[start..][i] == lines[start + i];
    }
  }

  predicate IsTrimmed(lines: seq<string>) {
    lines == [] || (!IsBlank(lines[0]) && !IsBlank(lines[|lines| - 1]))
  }

  lemma {:induction false} TrimBlankIsTrimmed(lines: seq<string>)
    ensures IsTrimmed(TrimBlank(lines))
  {
    var f := TrimFront(lines);
    var t := TrimBack(f);
    assert t != [] ==> t[0] == f[0];
  }

  lemma {:induction false} TrimBlankIsPart(lines: seq<string>) returns (start: nat)
    ensures start + |TrimBlank(lines)| <= |lines| && TrimBlank(lines) == lines[start..start + |TrimBlank(lines)|]
  {
    var f := TrimFront(lines);
    start := |lines| - |f|;
    assert f[..|TrimBack(f)|] == lines[start..start + |TrimBack(f)|];
  }

  lemma {:induction false} TrimTrimmed(lines: seq<string>)
    requires IsTrimmed(lines)
    ensures TrimBlank(lines) == lines
  {
  }

  predicate IsPadding(lines: seq<string>) {
    lines == [] || lines == [""]
  }

  lemma {:induction false} TrimFrontPadded(front: seq<string>, lines: seq<string>)
    requires IsPadding(front)
    ensures TrimFront(front + lines) == TrimFront(lines)
  {
    if front == [""] {
      assert (front + lines)[1..] == lines;
    } else {
      assert front + lines == lines;
    }
  }

  lemma {:induction false} TrimBackPadded(lines: seq<string>, back: seq<string>)
    requires IsPadding(back)
    ensures TrimBack(lines + back) == TrimBack(lines)
  {
    if back == [""] {
      assert (lines + back)[..|lines|] == lines;
    } else {
      assert lines + back == lines;
    }
  }

  /** An empty line at either end is trimmed away. */
  lemma {:induction false} TrimPadded(front: seq<string>, lines: seq<string>, back: seq<string>)
    requires IsTrimmed(lines) && IsPadding(front) && IsPadding(back)
    ensures TrimBlank(front + lines + back) == lines
  {
    assert front + lines + back == front + (lines + back);
    TrimFrontPadded(front, lines + back);
    if lines == [] {
      assert lines + back == back + [];
      TrimFrontPadded(back, []);
    } else {
      assert (lines + back)[0] == lines[0];
      TrimBackPadded(lines, back);
    }
  }

  // ----- rendering -----

  /** A document without line numbers, outer blank lines and empty subsections. */
  datatype PlainSub = PlainSub(title: string, lines: seq<string>)

  datatype PlainSection = PlainSection(heading: string, leading: seq<string>, subs: seq<PlainSub>)

  datatype Plain = Plain(prefix: seq<string>, sections: seq<PlainSection>)

  /** A subsection without lines is not written. */
  function PlainHead(sub: Subsection): seq<PlainSub> {
    var lines := TrimBlank(Texts(sub.lines));
    if lines == [] then [] else [PlainSub(sub.title, lines)]
  }

  function PlainSubs(subsections: seq<Subsection>): seq<PlainSub> {
    if subsections == [] then [] else PlainHead(subsections[0]) + PlainSubs(subsections[1..])
  }

  lemma {:induction false} PlainSubsFirst(first: Subsection, rest: seq<Subsection>)
    ensures PlainSubs([first] + rest) == PlainHead(first) + PlainSubs(rest)
  {
    assert ([first] + rest)[1..] == rest;
  }

  function PlainSectionOf(s: Section): PlainSection {
    PlainSection(s.heading, TrimBlank(Texts(s.leading)), PlainSubs(s.subsections))
  }

  function PlainSections(sections: seq<Section>): seq<PlainSection> {
    if sections == [] then [] else [PlainSectionOf(sections[0])] + PlainSections(sections[1..])
  }

  function PlainOf(d: Document): Plain {
    Plain(TrimBlank(Texts(d.prefix)), PlainSections(d.sections))
  }

  function SubLines(subs: seq<PlainSub>): seq<string> {
    if subs == [] then [] else ["", "### " + subs[0].title, ""] + subs[0].lines + SubLines(subs[1..])
  }

  function LeadingLines(leading: seq<string>): seq<string> {
    if leading == [] then [] else [""] + leading
  }

  /** What stands below the heading of a release, without the empty line after it. */
  function BodyLines(s: PlainSection): seq<string> {
    LeadingLines(s.leading) + SubLines(s.subs)
  }

  /** The releases with an empty line between them. */
  function ReleaseLines(sections: seq<PlainSection>): seq<string> {
    if sections == [] then []
    else [sections[0].heading] + (BodyLines(sections[0]) + EmptyBefore(sections[1..])) + ReleaseLines(sections[1..])
  }

  /** The empty line in front of further releases. */
  function EmptyBefore(sections: seq<PlainSection>): seq<string> {
    if sections == [] then [] else [""]
  }

  function RenderedLines(p: Plain): seq<string> {
    p.prefix + (if p.prefix == [] then [] else EmptyBefore(p.sections)) + ReleaseLines(p.sections)
  }

  function Rendered(d: Document): string {
    Join(RenderedLines(PlainOf(d))) + "\n"
  }
}
