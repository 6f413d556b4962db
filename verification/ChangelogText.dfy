/** Lines of a changelog: white space, bullets and headings, and splitting a text into lines. */
module ChangelogText {

  /** What `trim` and `\s` take for white space. */
  predicate IsSpace(c: char) {
    var n := c as int;
    9 <= n <= 13 || n == 32 || n == 0xA0 || n == 0x1680 || 0x2000 <= n <= 0x200A
    || n == 0x2028 || n == 0x2029 || n == 0x202F || n == 0x205F || n == 0x3000 || n == 0xFEFF
  }

  function TrimStart(s: string): (r: string)
    ensures |r| <= |s|
    ensures r == [] || !IsSpace(r[0])
  {
    if s != [] && IsSpace(s[0]) then TrimStart(s[1..]) else s
  }

  function TrimEnd(s: string): (r: string)
    ensures |r| <= |s| && r == s[..|r|]
    ensures r == [] || !IsSpace(r[|r| - 1])
  {
    if s != [] && IsSpace(s[|s| - 1]) then TrimEnd(s[..|s| - 1]) else s
  }

  function Trim(s: string): (r: string)
    ensures r == [] || (!IsSpace(r[0]) && !IsSpace(r[|r| - 1]))
  {
    TrimEnd(TrimStart(s))
  }

  predicate IsBlank(line: string) {
    forall i :: 0 <= i < |line| ==> IsSpace(line[i])
  }

  predicate StartsWith(s: string, prefix: string) {
    |prefix| <= |s| && s[..|prefix|] == prefix
  }

  /** A bullet, however far it is indented. */
  predicate IsBullet(line: string) {
    StartsWith(TrimStart(line), "- ")
  }

  /** `## [` with at least one character before the closing bracket. */
  predicate IsReleaseHeading(line: string) {
    StartsWith(line, "## [") && ClosingBracket(line, 4) < |line| && ClosingBracket(line, 4) > 4
  }

  function ClosingBracket(line: string, from: nat): (k: nat)
    requires from <= |line|
    ensures from <= k <= |line| && (k < |line| ==> line[k] == ']')
    decreases |line| - from
  {
    if from == |line| || line[from] == ']' then from else ClosingBracket(line, from + 1)
  }

  function ReleaseTitle(heading: string): string
    requires IsReleaseHeading(heading)
  {
    heading[4..ClosingBracket(heading, 4)]
  }

  /** `###`, white space, and something that is not. */
  predicate IsSubHeading(line: string) {
    StartsWith(line, "###") && |line| > 3 && IsSpace(line[3]) && !IsBlank(line[3..])
  }

  function SubTitle(heading: string): string
    requires IsSubHeading(heading)
  {
    Trim(heading[3..])
  }

  lemma {:induction false} BlankTrimsAway(line: string)
    ensures IsBlank(line) <==> TrimStart(line) == []
  {
    if line != [] && IsSpace(line[0]) {
      BlankTrimsAway(line[1..]);
      assert line == [line[0]] + line[1..];
    }
  }

  lemma {:induction false} BlankTrimEnd(s: string)
    ensures IsBlank(s) <==> TrimEnd(s) == []
  {
    if s != [] && IsSpace(s[|s| - 1]) {
      BlankTrimEnd(s[..|s| - 1]);
      assert s == s[..|s| - 1] + [s[|s| - 1]];
    }
  }

  /** `trim` leaves nothing exactly of a blank line. */
  lemma {:induction false} BlankIsTrimmed(line: string)
    ensures IsBlank(line) <==> Trim(line) == []
  {
    BlankTrimsAway(line);
    BlankTrimEnd(TrimStart(line));
    var t := TrimStart(line);
    assert t != [] ==> !IsSpace(t[0]);
  }

  /** A subsection heading written from a title gives the title back. */
  lemma {:induction false} SubTitleBack(title: string)
    requires title != [] && !IsSpace(title[0]) && !IsSpace(title[|title| - 1])
    ensures IsSubHeading("### " + title) && SubTitle("### " + title) == title
    ensures !IsReleaseHeading("### " + title) && !IsBlank("### " + title)
  {
    var line := "### " + title;
    assert line[3..] == " " + title && (" " + title)[1..] == title;
    assert line[..3] == "###" && line[3] == ' ';
    assert TrimStart(" " + title) == TrimStart(title) == title;
    assert TrimEnd(title) == title;
    assert line[4] == title[0];
    assert line[0] == '#' && line[2] == '#';
    assert line[..4][2] != "## ["[2];
  }

  lemma {:induction false} HeadingKinds(line: string)
    ensures !(IsReleaseHeading(line) && IsSubHeading(line))
    ensures IsReleaseHeading(line) || IsSubHeading(line) ==> !IsBlank(line) && !IsBullet(line) && line != []
  {
    if IsReleaseHeading(line) {
      assert line[..4][0] == "## ["[0] && line[..4][2] == "## ["[2];
    }
    if IsSubHeading(line) {
      assert line[..3][0] == "###"[0] && line[..3][2] == "###"[2];
    }
    if IsBullet(line) {
      assert TrimStart(line)[..2][0] == "- "[0];
    }
  }

  // ----- the forms of lines -----

  lemma {:induction false} StartTrimmed(s: string) returns (lead: string)
    ensures IsBlank(lead) && s == lead + TrimStart(s)
  {
    lead := [];
    if s != [] && IsSpace(s[0]) {
      var rest := StartTrimmed(s[1..]);
      lead := [s[0]] + rest;
    }
  }

  lemma {:induction false} EndTrimmed(s: string) returns (tail: string)
    ensures IsBlank(tail) && s == TrimEnd(s) + tail
  {
    tail := [];
    if s != [] && IsSpace(s[|s| - 1]) {
      var rest := EndTrimmed(s[..|s| - 1]);
      tail := rest + [s[|s| - 1]];
    }
  }

  /** Trimming takes away white space at both ends, and nothing else. */
  lemma {:induction false} TrimmedOff(s: string) returns (lead: string, tail: string)
    ensures IsBlank(lead) && IsBlank(tail) && s == lead + Trim(s) + tail
  {
    lead := StartTrimmed(s);
    tail := EndTrimmed(TrimStart(s));
  }

  lemma {:induction false} StartOf(lead: string, rest: string)
    requires IsBlank(lead) && rest != [] && !IsSpace(rest[0])
    ensures TrimStart(lead + rest) == rest
    decreases |lead|
  {
    var s := lead + rest;
    if lead == [] {
      assert s == rest;
    } else {
      StartOf(lead[1..], rest);
      assert s[0] == lead[0] && s[1..] == lead[1..] + rest;
    }
  }

  /** A bullet is white space, a hyphen and a space, and whatever follows. */
  lemma {:induction false} BulletForm(line: string)
    ensures IsBullet(line) <==> exists lead, text :: IsBlank(lead) && line == lead + "- " + text
  {
    if IsBullet(line) {
      var lead := StartTrimmed(line);
      assert line == lead + "- " + TrimStart(line)[2..];
    }
    if lead, text :| IsBlank(lead) && line == lead + "- " + text {
      var rest := "- " + text;
      assert line == lead + rest && rest[0] == '-';
      StartOf(lead, rest);
      assert rest[..2] == "- ";
    }
  }

  lemma {:induction false} BracketAt(line: string, from: nat, title: string, rest: string)
    requires from <= |line| && line[from..] == title + "]" + rest && ']' !in title
    ensures ClosingBracket(line, from) == from + |title|
    decreases |title|
  {
    var tail := title + "]" + rest;
    assert line[from] == tail[0];
    if title != [] {
      assert title[0] in title;
      assert line[from + 1..] == line[from..][1..] == title[1..] + "]" + rest;
      BracketAt(line, from + 1, title[1..], rest);
    }
  }

  lemma {:induction false} NoBracketBefore(line: string, from: nat)
    requires from <= |line|
    ensures forall i :: from <= i < ClosingBracket(line, from) ==> line[i] != ']'
    decreases |line| - from
  {
    if from < |line| && line[from] != ']' {
      NoBracketBefore(line, from + 1);
    }
  }

  /** A release heading is its title in brackets behind `## `, and whatever follows. */
  lemma {:induction false} ReleaseForm(line: string, title: string)
    ensures IsReleaseHeading(line) && ReleaseTitle(line) == title
      <==> title != "" && ']' !in title && exists rest :: line == "## [" + title + "]" + rest
  {
    if IsReleaseHeading(line) && ReleaseTitle(line) == title {
      var k := ClosingBracket(line, 4);
      NoBracketBefore(line, 4);
      assert line == line[..4] + line[4..k] + [line[k]] + line[k + 1..];
      assert line == "## [" + title + "]" + line[k + 1..];
    }
    if title != "" && ']' !in title {
      if rest :| line == "## [" + title + "]" + rest {
        assert line[..4] == "## [" && line[4..] == title + "]" + rest;
        BracketAt(line, 4, title, rest);
        assert line[4..4 + |title|] == title;
      }
    }
  }

  lemma {:induction false} EndOf(text: string, tail: string)
    requires IsBlank(tail) && text != [] && !IsSpace(text[|text| - 1])
    ensures TrimEnd(text + tail) == text
    decreases |tail|
  {
    var s := text + tail;
    if tail == [] {
      assert s == text;
    } else {
      var n := |tail| - 1;
      EndOf(text, tail[..n]);
      assert s[|s| - 1] == tail[n] && s[..|s| - 1] == text + tail[..n];
    }
  }

  /** Something that is not blank and has no white space at either end. */
  predicate IsTitle(title: string) {
    title != [] && !IsSpace(title[0]) && !IsSpace(title[|title| - 1])
  }

  ghost predicate SubHeadingOf(line: string, title: string) {
    exists lead, tail :: lead != "" && IsBlank(lead) && IsBlank(tail) && line == "###" + lead + title + tail
  }

  lemma {:induction false} BeginsWithSpace(lead: string, title: string, tail: string)
    requires title != [] && !IsSpace(title[0]) && IsSpace((lead + title + tail)[0])
    ensures lead != ""
  {
  }

  /** A subsection heading is its title behind `###` and white space, and whatever white space follows. */
  lemma {:induction false} SubForm(line: string, title: string)
    ensures IsSubHeading(line) && SubTitle(line) == title <==> IsTitle(title) && SubHeadingOf(line, title)
  {
    if IsSubHeading(line) && SubTitle(line) == title {
      var lead, tail := TrimmedOff(line[3..]);
      BlankIsTrimmed(line[3..]);
      assert line == line[..3] + line[3..];
      BeginsWithSpace(lead, title, tail);
      assert line == "###" + lead + title + tail;
    }
    if IsTitle(title) && SubHeadingOf(line, title) {
      var lead, tail :| lead != "" && IsBlank(lead) && IsBlank(tail) && line == "###" + lead + title + tail;
      assert line[3..] == lead + (title + tail) && line[..3] == "###" && line[3] == lead[0];
      StartOf(lead, title + tail);
      EndOf(title, tail);
      BlankIsTrimmed(line[3..]);
    }
  }
}
