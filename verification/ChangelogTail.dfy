/** Collapsing the oldest releases of an oversized changelog, and its archive footer. */
module ChangelogTail {
  import opened Options
  import opened ChangelogText
  import opened ChangelogLines

  // ----- where releases start and end -----

  /** The indices of the release headings, in order. */
  ghost predicate AreHeadings(lines: seq<string>, headings: seq<nat>, upto: nat) {
    && upto <= |lines|
    && (forall k :: 0 <= k < |headings| ==> headings[k] < upto && IsReleaseHeading(lines[headings[k]]))
    && (forall j, k :: 0 <= j < k < |headings| ==> headings[j] < headings[k])
    && (forall i: nat :: i < upto && IsReleaseHeading(lines[i]) ==> i in headings)
  }

  function Headings(lines: seq<string>, upto: nat): (headings: seq<nat>)
    requires upto <= |lines|
    ensures AreHeadings(lines, headings, upto)
  {
    if upto == 0 then []
    else
      var before := Headings(lines, upto - 1);
      if IsReleaseHeading(lines[upto - 1]) then HeadingNext(lines, before, upto - 1); before + [upto - 1] else before
  }

  /** The releases of a text. */
  function Releases(content: string): (headings: seq<nat>)
    ensures AreHeadings(SplitContent(content), headings, |SplitContent(content)|)
  {
    Headings(SplitContent(content), |SplitContent(content)|)
  }

  method FindHeadings(lines: seq<string>) returns (headings: seq<nat>)
    ensures headings == Headings(lines, |lines|)
  {
    headings := [];
    for i := 0 to |lines|
      invariant headings == Headings(lines, i)
    {
      if IsReleaseHeading(lines[i]) {
        headings := headings + [i];
      }
    }
  }

  lemma {:induction false} HeadingNext(lines: seq<string>, headings: seq<nat>, i: nat)
    requires AreHeadings(lines, headings, i) && i < |lines| && IsReleaseHeading(lines[i])
    ensures AreHeadings(lines, headings + [i], i + 1)
  {
    forall j: nat | j < i + 1 && IsReleaseHeading(lines[j]) ensures j in headings + [i] {
      assert j == i || j in headings;
    }
  }

  /** Blank lines before a heading do not belong to the body that ends there. */
  function BodyEnd(lines: seq<string>, end: nat): (e: nat)
    requires end <= |lines|
    ensures e <= end && (forall i :: e <= i < end ==> IsBlank(lines[i])) && (e > 0 ==> !IsBlank(lines[e - 1]))
  {
    if end > 0 && IsBlank(lines[end - 1]) then BodyEnd(lines, end - 1) else end
  }

  method FindBodyEnd(lines: seq<string>, headingLine: nat) returns (end: nat)
    requires headingLine <= |lines|
    ensures end == BodyEnd(lines, headingLine)
  {
    end := headingLine;
    while end > 0 && IsBlank(lines[end - 1])
      invariant end <= headingLine && BodyEnd(lines, end) == BodyEnd(lines, headingLine)
    {
      end := end - 1;
    }
  }

  method CumulativeBytes(lines: seq<string>) returns (bytes: array<nat>)
    ensures bytes.Length == |lines| + 1 && fresh(bytes)
    ensures forall i :: 0 <= i <= |lines| ==> bytes[i] == LineBytes(lines[..i])
  {
    bytes := new nat[|lines| + 1](_ => 0);
    for i := 0 to |lines|
      invariant forall j :: 0 <= j <= i ==> bytes[j] == LineBytes(lines[..j])
    {
      assert lines[..i + 1][..i] == lines[..i];
      bytes[i + 1] := bytes[i] + ByteLength(lines[i]) + 1;
    }
  }

  // ----- the collapse -----

  function Footer(link: string): string {
    "\n" + link + "\n"
  }

  /** What is written when only the first `k` of these releases are kept. */
  ghost function Kept(lines: seq<string>, headings: seq<nat>, k: nat): string
    requires k < |headings| && headings[k] <= |lines|
  {
    Join(lines[..BodyEnd(lines, headings[k])]) + "\n"
  }

  ghost predicate FitsWith(content: string, link: string, maxBytes: int) {
    ByteLength(content + Footer(link)) <= maxBytes
  }

  datatype Collapsed = Collapsed(content: string, collapsedReleases: nat)

  /** `k` releases are kept: at least two, as many as fit, and only what does not fit is dropped. */
  ghost predicate BestPrefix(lines: seq<string>, headings: seq<nat>, link: string, maxBytes: int, k: nat)
    requires AreHeadings(lines, headings, |lines|)
  {
    && 2 <= k < |headings|
    && (k > 2 ==> FitsWith(Kept(lines, headings, k), link, maxBytes))
    && (forall j :: k < j < |headings| ==> !FitsWith(Kept(lines, headings, j), link, maxBytes))
  }

  lemma {:induction false} KeptBytes(lines: seq<string>, headings: seq<nat>, k: nat, link: string)
    requires AreHeadings(lines, headings, |lines|) && 0 < k < |headings|
    ensures var end := BodyEnd(lines, headings[k]);
      end > 0 && ByteLength(Kept(lines, headings, k) + Footer(link)) == LineBytes(lines[..end]) + ByteLength(Footer(link))
  {
    var end := BodyEnd(lines, headings[k]);
    assert headings[0] < headings[k];
    HeadingKinds(lines[headings[0]]);
    assert end > headings[0];
    ByteConcat(Kept(lines, headings, k), Footer(link));
    WrittenBytes(lines[..end]);
  }

  lemma {:induction false} KeptFits(lines: seq<string>, headings: seq<nat>, k: nat, link: string, maxBytes: int)
    requires AreHeadings(lines, headings, |lines|) && 0 < k < |headings|
    ensures FitsWith(Kept(lines, headings, k), link, maxBytes)
      <==> LineBytes(lines[..BodyEnd(lines, headings[k])]) <= maxBytes - ByteLength(Footer(link))
  {
    KeptBytes(lines, headings, k, link);
  }

  /** Tries the candidates from the largest down. */
  method ChooseKept(lines: seq<string>, headings: seq<nat>, link: string, maxBytes: int) returns (kept: nat)
    requires AreHeadings(lines, headings, |lines|) && |headings| > 2
    ensures BestPrefix(lines, headings, link, maxBytes, kept)
  {
    var bytes := CumulativeBytes(lines);
    var budget := maxBytes - ByteLength(Footer(link));
    var candidate := |headings| - 1;
    while candidate >= 2
      invariant 1 <= candidate < |headings|
      invariant forall j :: candidate < j < |headings| ==> !FitsWith(Kept(lines, headings, j), link, maxBytes)
      modifies {}
    {
      var end := FindBodyEnd(lines, headings[candidate]);
      KeptFits(lines, headings, candidate, link, maxBytes);
      if bytes[end] <= budget {
        return candidate;
      }
      candidate := candidate - 1;
    }
    kept := 2;
  }

  /** The result for a text that is too long: its first `kept` releases and how many are gone. */
  ghost predicate CollapsedTo(content: string, link: string, maxBytes: int, r: Collapsed, kept: nat) {
    && BestPrefix(SplitContent(content), Releases(content), link, maxBytes, kept)
    && r == Collapsed(Kept(SplitContent(content), Releases(content), kept), |Releases(content)| - kept)
  }

  method CollapseChangelogTail(content: string, link: string, maxBytes: int) returns (r: Collapsed)
    ensures FitsWith(content, link, maxBytes) || |Releases(content)| <= 2 ==> r == Collapsed(content, 0)
    ensures !FitsWith(content, link, maxBytes) && |Releases(content)| > 2 ==>
      exists kept :: CollapsedTo(content, link, maxBytes, r, kept)
  {
    ByteConcat(content, Footer(link));
    if ByteLength(content) + ByteLength(Footer(link)) <= maxBytes {
      return Collapsed(content, 0);
    }
    var lines := SplitContent(content);
    var headings := FindHeadings(lines);
    if |headings| <= 2 {
      return Collapsed(content, 0);
    }
    var kept := ChooseKept(lines, headings, link, maxBytes);
    var end := FindBodyEnd(lines, headings[kept]);
    r := Collapsed(Join(lines[..end]) + "\n", |headings| - kept);
    assert CollapsedTo(content, link, maxBytes, r, kept);
  }

  /** What a collapse leaves is a prefix of the lines with exactly the kept releases in it. */
  lemma {:induction false} KeptIsPrefix(content: string, link: string, maxBytes: int, r: Collapsed, k: nat)
    requires CollapsedTo(content, link, maxBytes, r, k)
    ensures SplitContent(r.content) <= SplitContent(content)
    ensures AreHeadings(SplitContent(r.content), Releases(content)[..k], |SplitContent(r.content)|)
    ensures r.collapsedReleases + k == |Releases(content)|
  {
    var lines, headings := SplitContent(content), Releases(content);
    SplitContentLines(content);
    KeptBytes(lines, headings, k, "");
    SplitWritten(lines[..BodyEnd(lines, headings[k])]);
    HeadingsBefore(lines, headings, k, BodyEnd(lines, headings[k]));
  }

  lemma {:induction false} HeadingsBefore(lines: seq<string>, headings: seq<nat>, k: nat, end: nat)
    requires AreHeadings(lines, headings, |lines|) && k < |headings| && end == BodyEnd(lines, headings[k])
    ensures AreHeadings(lines[..end], headings[..k], end)
  {
    forall j | 0 <= j < k ensures headings[j] < end {
      HeadingBefore(lines, headings, j, k, end);
    }
    forall i: nat | i < end && IsReleaseHeading(lines[..end][i]) ensures i in headings[..k] {
      IsBefore(lines, headings, i, k);
    }
  }

  lemma {:induction false} HeadingBefore(lines: seq<string>, headings: seq<nat>, j: nat, k: nat, end: nat)
    requires AreHeadings(lines, headings, |lines|) && j < k < |headings| && end == BodyEnd(lines, headings[k])
    ensures headings[j] < end
  {
    HeadingKinds(lines[headings[j]]);
    assert headings[j] < headings[k];
  }

  lemma {:induction false} IsBefore(lines: seq<string>, headings: seq<nat>, i: nat, k: nat)
    requires AreHeadings(lines, headings, |lines|) && k < |headings| && i < headings[k] && IsReleaseHeading(lines[i])
    ensures i in headings[..k]
  {
    var m: nat :| m < |headings| && headings[m] == i;
    assert forall n :: k < n < |headings| ==> headings[k] < headings[n];
    assert m < k;
    assert headings[..k][m] == i;
  }

  // ----- the footer -----

  // The form an archive link has.
  type LinkForm = string -> bool

  datatype Split = Split(body: string, archiveLink: Option<string>)

  lemma {:induction false} NotBlank(line: string)
    requires !IsBlank(line)
    ensures line != ""
  {
  }

  method SplitArchiveFooter(content: string, isLink: LinkForm) returns (r: Split)
    ensures r == FooterSplit(content, isLink)
    ensures (forall i :: 0 <= i < |SplitContent(content)| ==> !isLink(SplitContent(content)[i])) ==> r == Split(content, None)
  {
    var lines := SplitContent(content);
    var end := FindBodyEnd(lines, |lines|);
    if end > 0 {
      NotBlank(lines[end - 1]);
    }
    if end == 0 || lines[end - 1] == "" || !isLink(lines[end - 1]) {
      return Split(content, None);
    }
    var bodyEnd := FindBodyEnd(lines, end - 1);
    r := Split(Join(lines[..bodyEnd]) + "\n", Some(lines[end - 1]));
  }

  function FooterSplit(content: string, isLink: LinkForm): Split {
    var lines := SplitContent(content);
    var end := BodyEnd(lines, |lines|);
    if end == 0 || !isLink(lines[end - 1]) then Split(content, None)
    else Split(Join(lines[..BodyEnd(lines, end - 1)]) + "\n", Some(lines[end - 1]))
  }

  /** Appending a footer and splitting it off again gives the body and the link back. */
  lemma {:induction false} FooterComesOff(body: seq<string>, link: string, isLink: LinkForm)
    requires body != [] && AreLines(body) && !IsBlank(body[|body| - 1])
    requires IsLine(link) && !IsBlank(link) && isLink(link)
    ensures FooterSplit(Join(body) + "\n" + Footer(link), isLink) == Split(Join(body) + "\n", Some(link))
  {
    WithFooter(body, link);
    var lines := body + ["", link];
    SplitWritten(lines);
    FooterEnds(body, link);
    assert lines[..|body|] == body;
  }

  lemma {:induction false} WithFooter(body: seq<string>, link: string)
    requires body != []
    ensures Join(body) + "\n" + Footer(link) == Join(body + ["", link]) + "\n"
  {
    JoinAppend(body, "");
    JoinAppend(body + [""], link);
    assert body + [""] + [link] == body + ["", link];
    calc {
      Join(body + ["", link]) + "\n";
      Join(body + [""]) + "\n" + link + "\n";
      Join(body) + "\n" + "" + "\n" + link + "\n";
      Join(body) + "\n" + ("\n" + link + "\n");
    }
  }

  lemma {:induction false} FooterEnds(body: seq<string>, link: string)
    requires body != [] && !IsBlank(body[|body| - 1]) && !IsBlank(link)
    ensures var lines := body + ["", link];
      BodyEnd(lines, |lines|) == |lines| && BodyEnd(lines, |lines| - 1) == |body|
  {
    var lines := body + ["", link];
    assert IsBlank(lines[|body|]) && lines[|body| - 1] == body[|body| - 1];
    assert BodyEnd(lines, |body|) == |body|;
  }
}
