/** How a changelog is written: every heading stands alone between empty lines. */
module ChangelogLayout {
  import opened ChangelogText
  import opened ChangelogDocument
  import opened ChangelogRoundTrip

  predicate IsHead(line: string) {
    IsReleaseHeading(line) || IsSubHeading(line)
  }

  /** Directly above and below every heading there is an empty line, or nothing. */
  predicate Spaced(lines: seq<string>) {
    forall i :: 0 <= i < |lines| && IsHead(lines[i]) ==>
      (i > 0 ==> lines[i - 1] == "") && (i + 1 < |lines| ==> lines[i + 1] == "")
  }

  lemma {:induction false} SpacedConcat(a: seq<string>, b: seq<string>)
    requires Spaced(a) && Spaced(b)
    requires a != [] && b != [] ==> (IsHead(a[|a| - 1]) ==> b[0] == "") && (IsHead(b[0]) ==> a[|a| - 1] == "")
    ensures Spaced(a + b)
  {
    var all, n := a + b, |a|;
    forall i | 0 <= i < |all| && IsHead(all[i])
      ensures (i > 0 ==> all[i - 1] == "") && (i + 1 < |all| ==> all[i + 1] == "")
    {
      if i < n {
        assert IsHead(a[i]);
        assert i + 1 < n ==> all[i + 1] == a[i + 1];
      } else {
        assert IsHead(b[i - n]);
        assert i > n ==> all[i - 1] == b[i - n - 1];
        assert i + 1 < |all| ==> all[i + 1] == b[i + 1 - n];
      }
    }
  }

  lemma {:induction false} BodyIsSpaced(lines: seq<string>)
    requires IsBody(lines)
    ensures Spaced(lines) && Spaced([""] + lines)
  {
    EmptyIsNoHeading();
  }

  /** Begins with an empty line and does not end with a heading. */
  predicate Below(lines: seq<string>) {
    Spaced(lines) && (lines != [] ==> lines[0] == "" && !IsHead(lines[|lines| - 1]))
  }

  lemma {:induction false} BelowConcat(a: seq<string>, b: seq<string>)
    requires Below(a) && Below(b)
    ensures Below(a + b)
  {
    EmptyIsNoHeading();
    SpacedConcat(a, b);
    var all := a + b;
    assert a != [] ==> all[0] == a[0];
    assert b != [] ==> all[|all| - 1] == b[|b| - 1];
    assert b == [] ==> all == a;
    assert a == [] ==> all == b;
  }

  lemma {:induction false} SubIsBelow(s: PlainSub)
    requires SubFine(s)
    ensures Below(["", "### " + s.title, ""] + s.lines)
  {
    EmptyIsNoHeading();
    BodyIsSpaced(s.lines);
    var head := ["", "### " + s.title, ""];
    SpacedConcat(head, s.lines);
    var all := head + s.lines;
    assert all[0] == "" && all[|all| - 1] == s.lines[|s.lines| - 1];
  }

  lemma {:induction false} SubsAreBelow(subs: seq<PlainSub>)
    requires SubsFine(subs)
    ensures Below(SubLines(subs))
    decreases |subs|
  {
    if subs != [] {
      SubsAreBelow(subs[1..]);
      SubIsBelow(subs[0]);
      BelowConcat(["", "### " + subs[0].title, ""] + subs[0].lines, SubLines(subs[1..]));
    }
  }

  lemma {:induction false} BodyIsBelow(s: PlainSection)
    requires SectionFine(s)
    ensures Below(BodyLines(s))
  {
    SubsAreBelow(s.subs);
    BodyIsSpaced(s.leading);
    BelowConcat(LeadingLines(s.leading), SubLines(s.subs));
  }

  /** The heading of a release, what is below it, and the empty line in front of the next one. */
  lemma {:induction false} ReleaseIsSpaced(s: PlainSection, rest: seq<PlainSection>)
    requires SectionFine(s)
    ensures var lines := [s.heading] + (BodyLines(s) + EmptyBefore(rest));
      Spaced(lines) && (rest != [] ==> lines[|lines| - 1] == "")
  {
    EmptyIsNoHeading();
    BodyIsBelow(s);
    BelowConcat(BodyLines(s), EmptyBefore(rest));
    SpacedConcat([s.heading], BodyLines(s) + EmptyBefore(rest));
  }

  lemma {:induction false} ReleasesAreSpaced(sections: seq<PlainSection>)
    requires SectionsFine(sections)
    ensures Spaced(ReleaseLines(sections))
    ensures sections != [] ==> ReleaseLines(sections) != [] && ReleaseLines(sections)[0] == sections[0].heading
    decreases |sections|
  {
    if sections != [] {
      EmptyIsNoHeading();
      ReleasesAreSpaced(sections[1..]);
      ReleaseIsSpaced(sections[0], sections[1..]);
      SpacedConcat([sections[0].heading] + (BodyLines(sections[0]) + EmptyBefore(sections[1..])), ReleaseLines(sections[1..]));
    }
  }

  /**
   * The written lines of a document are those in front of the first release, an empty line if there are any, and releases
   * in which every heading has an empty line, or nothing, directly above and below.
   */
  lemma {:induction false} HeadingsStandAlone(p: Plain)
    requires WellFormed(p) && p.sections != []
    ensures var lines, n := RenderedLines(p), if p.prefix == [] then 0 else |p.prefix| + 1;
      && n < |lines| && lines[n] == p.sections[0].heading && Spaced(lines[n..])
      && (p.prefix != [] ==> lines[..n] == p.prefix + [""])
  {
    ReleasesAreSpaced(p.sections);
    var front := p.prefix + (if p.prefix == [] then [] else EmptyBefore(p.sections));
    var lines := front + ReleaseLines(p.sections);
    assert RenderedLines(p) == lines;
    assert lines[|front|..] == ReleaseLines(p.sections) && lines[..|front|] == front;
  }
}
