/** Rendering and parsing undo each other, up to line numbers, outer blank lines and empty subsections. */
module ChangelogRoundTrip {
  import opened Collections
  import opened ChangelogText
  import opened ChangelogLines
  import opened ChangelogDocument

  // ----- well-formed documents -----

  /** Lines that hold no heading, so that they stay where they are written. */
  predicate IsBody(lines: seq<string>) {
    forall i :: 0 <= i < |lines| ==> IsLine(lines[i]) && !IsReleaseHeading(lines[i]) && !IsSubHeading(lines[i])
  }

  predicate SubFine(s: PlainSub) {
    && s.title != [] && !IsSpace(s.title[0]) && !IsSpace(s.title[|s.title| - 1]) && IsLine(s.title)
    && s.lines != [] && IsTrimmed(s.lines) && IsBody(s.lines)
  }

  predicate SubsFine(subs: seq<PlainSub>) {
    forall i :: 0 <= i < |subs| ==> SubFine(subs[i])
  }

  predicate SectionFine(s: PlainSection) {
    && IsLine(s.heading) && IsReleaseHeading(s.heading)
    && IsTrimmed(s.leading) && IsBody(s.leading) && SubsFine(s.subs)
  }

  predicate SectionsFine(sections: seq<PlainSection>) {
    forall i :: 0 <= i < |sections| ==> SectionFine(sections[i])
  }

  predicate IsPreamble(lines: seq<string>) {
    forall i :: 0 <= i < |lines| ==> IsLine(lines[i]) && !IsReleaseHeading(lines[i])
  }

  predicate WellFormed(p: Plain) {
    IsTrimmed(p.prefix) && IsPreamble(p.prefix) && SectionsFine(p.sections)
  }

  // ----- finding the headings again -----

  lemma {:induction false} NextSubIs(lines: seq<NumberedLine>, i: nat, k: nat)
    requires i <= k <= |lines| && (k < |lines| ==> IsSubHeading(lines[k].text))
    requires forall j :: i <= j < k ==> !IsSubHeading(lines[j].text)
    ensures NextSub(lines, i) == k
    decreases k - i
  {
    if i < k {
      NextSubIs(lines, i + 1, k);
    }
  }

  lemma {:induction false} NextReleaseIs(lines: seq<NumberedLine>, i: nat, k: nat)
    requires i <= k <= |lines| && (k < |lines| ==> IsReleaseHeading(lines[k].text))
    requires forall j :: i <= j < k ==> !IsReleaseHeading(lines[j].text)
    ensures NextRelease(lines, i) == k
    decreases k - i
  {
    if i < k {
      NextReleaseIs(lines, i + 1, k);
    }
  }

  lemma {:induction false} TextsSlice(lines: seq<NumberedLine>, i: nat, k: nat)
    requires i <= k <= |lines|
    ensures Texts(lines[i..k]) == Texts(lines)[i..k] && Texts(lines[i..]) == Texts(lines)[i..] && Texts(lines[..k]) == Texts(lines)[..k]
  {
  }

  /** The lines that carry `own`, between those of `head` and those of `after`. */
  lemma {:induction false} SplitTexts(lines: seq<NumberedLine>, head: seq<string>, own: seq<string>, after: seq<string>)
    requires Texts(lines) == head + own + after
    ensures var i, k := |head|, |head| + |own|;
      k <= |lines| && Texts(lines[i..k]) == own && Texts(lines[..k]) == head + own && Texts(lines[k..]) == after
    ensures forall j :: 0 <= j < |own| ==> lines[|head| + j].text == own[j]
    ensures head != [] ==> lines != [] && lines[0].text == head[0]
    ensures after != [] ==> |head| + |own| < |lines| && lines[|head| + |own|].text == after[0]
    ensures after == [] ==> |head| + |own| == |lines|
  {
    var i, k := |head|, |head| + |own|;
    TextsSlice(lines, i, k);
    TextsSlice(lines, k, |lines|);
    assert forall j :: 0 <= j < |lines| ==> lines[j].text == Texts(lines)[j];
  }

  predicate NoSubHeading(lines: seq<string>) {
    forall j :: 0 <= j < |lines| ==> !IsSubHeading(lines[j])
  }

  predicate NoRelease(lines: seq<string>) {
    forall j :: 0 <= j < |lines| ==> !IsReleaseHeading(lines[j])
  }

  lemma {:induction false} SplitAtSub(lines: seq<NumberedLine>, head: seq<string>, own: seq<string>, after: seq<string>)
    requires Texts(lines) == head + own + after && NoSubHeading(own) && (after != [] ==> IsSubHeading(after[0]))
    ensures NextSub(lines, |head|) == |head| + |own|
  {
    SplitTexts(lines, head, own, after);
    var k := |head| + |own|;
    forall j | |head| <= j < k ensures !IsSubHeading(lines[j].text) {
      assert lines[|head| + (j - |head|)].text == own[j - |head|];
    }
    NextSubIs(lines, |head|, k);
  }

  lemma {:induction false} SplitAtRelease(lines: seq<NumberedLine>, head: seq<string>, own: seq<string>, after: seq<string>)
    requires Texts(lines) == head + own + after && NoRelease(own) && (after != [] ==> IsReleaseHeading(after[0]))
    ensures NextRelease(lines, |head|) == |head| + |own|
  {
    SplitTexts(lines, head, own, after);
    var k := |head| + |own|;
    forall j | |head| <= j < k ensures !IsReleaseHeading(lines[j].text) {
      assert lines[|head| + (j - |head|)].text == own[j - |head|];
    }
    NextReleaseIs(lines, |head|, k);
  }

  lemma {:induction false} EmptyIsNoHeading()
    ensures !IsReleaseHeading("") && !IsSubHeading("") && IsBlank("")
  {
  }

  // ----- subsections -----

  /** The subsections from the first heading on, with what follows the last of them. */
  function FromHeading(subs: seq<PlainSub>, pad: seq<string>): seq<string> {
    if subs == [] then []
    else ["### " + subs[0].title] + ([""] + subs[0].lines + Gap(subs[1..], pad)) + FromHeading(subs[1..], pad)
  }

  function Gap(rest: seq<PlainSub>, pad: seq<string>): seq<string> {
    if rest == [] then pad else [""]
  }

  lemma {:induction false} Regrouped<T>(e: T, h: T, own: seq<T>, gap: seq<T>, rest: seq<T>)
    ensures [e, h, e] + own + (gap + rest) == [e] + ([h] + ([e] + own + gap) + rest)
  {
  }

  lemma {:induction false} SubLinesFrom(subs: seq<PlainSub>, pad: seq<string>)
    ensures SubLines(subs) + pad == Gap(subs, pad) + FromHeading(subs, pad)
    decreases |subs|
  {
    if subs != [] {
      var rest := subs[1..];
      SubLinesFrom(rest, pad);
      var head := ["", "### " + subs[0].title, ""] + subs[0].lines;
      assert head + SubLines(rest) + pad == head + (SubLines(rest) + pad);
      Regrouped("", "### " + subs[0].title, subs[0].lines, Gap(rest, pad), FromHeading(rest, pad));
    }
  }

  lemma {:induction false} HeadingFirst(subs: seq<PlainSub>, pad: seq<string>)
    requires subs != [] && SubsFine(subs)
    ensures FromHeading(subs, pad) != [] && FromHeading(subs, pad)[0] == "### " + subs[0].title
    ensures IsSubHeading("### " + subs[0].title) && SubTitle("### " + subs[0].title) == subs[0].title
  {
    assert SubFine(subs[0]);
    SubTitleBack(subs[0].title);
  }

  lemma {:induction false} NoHeadingsBetween(own: seq<string>, front: seq<string>, gap: seq<string>)
    requires IsBody(own) && IsPadding(front) && IsPadding(gap)
    ensures NoSubHeading(front + own + gap)
  {
    EmptyIsNoHeading();
  }

  /** The text of the first subsection and where the next one starts. */
  lemma {:induction false} FirstSub(lines: seq<NumberedLine>, subs: seq<PlainSub>, pad: seq<string>)
    requires subs != [] && SubsFine(subs) && IsPadding(pad) && Texts(lines) == FromHeading(subs, pad)
    ensures lines != [] && lines[0].text == "### " + subs[0].title
    ensures var k := NextSub(lines, 1);
      Texts(lines[1..k]) == [""] + subs[0].lines + Gap(subs[1..], pad) && Texts(lines[k..]) == FromHeading(subs[1..], pad)
  {
    var gap := Gap(subs[1..], pad);
    var head, own, after := ["### " + subs[0].title], [""] + subs[0].lines + gap, FromHeading(subs[1..], pad);
    assert SubFine(subs[0]);
    if |subs| > 1 {
      HeadingFirst(subs[1..], pad);
    }
    NoHeadingsBetween(subs[0].lines, [""], gap);
    SplitBoth(lines, head, own, after);
  }

  lemma {:induction false} SplitBoth(lines: seq<NumberedLine>, head: seq<string>, own: seq<string>, after: seq<string>)
    requires Texts(lines) == head + own + after && NoSubHeading(own) && (after != [] ==> IsSubHeading(after[0]))
    requires |head| == 1
    ensures lines != [] && lines[0].text == head[0]
    ensures var k := NextSub(lines, 1); Texts(lines[1..k]) == own && Texts(lines[k..]) == after
  {
    SplitTexts(lines, head, own, after);
    SplitAtSub(lines, head, own, after);
  }

  /** The first subsection is recovered whole. */
  lemma {:induction false} FirstSubBack(lines: seq<NumberedLine>, subs: seq<PlainSub>, pad: seq<string>)
    requires subs != [] && SubsFine(subs) && IsPadding(pad) && Texts(lines) == FromHeading(subs, pad)
    ensures lines != [] && IsSubHeading(lines[0].text)
    ensures PlainSub(SubTitle(lines[0].text), TrimBlank(Texts(lines[1..NextSub(lines, 1)]))) == subs[0]
  {
    FirstSub(lines, subs, pad);
    HeadingFirst(subs, pad);
    FirstIsFine(subs);
    TrimPadded([""], subs[0].lines, Gap(subs[1..], pad));
  }

  lemma {:induction false} FirstIsFine(subs: seq<PlainSub>)
    requires subs != [] && SubsFine(subs)
    ensures SubFine(subs[0])
  {
  }

  lemma {:induction false} NoTexts(lines: seq<NumberedLine>)
    requires Texts(lines) == []
    ensures lines == []
  {
    assert |Texts(lines)| == |lines|;
  }

  lemma {:induction false} SubsBack(lines: seq<NumberedLine>, subs: seq<PlainSub>, pad: seq<string>)
    requires subs != [] && SubsFine(subs) && IsPadding(pad) && Texts(lines) == FromHeading(subs, pad)
    ensures lines != [] && IsSubHeading(lines[0].text) && PlainSubs(Subsections(lines)) == subs
    decreases |subs|
  {
    FirstSubBack(lines, subs, pad);
    AfterFirst(lines, subs, pad);
    var k := NextSub(lines, 1);
    if |subs| > 1 {
      SubsBack(lines[k..], subs[1..], pad);
    } else {
      NoTexts(lines[k..]);
    }
    SubsTogether(lines, subs, Subsection(SubTitle(lines[0].text), lines[1..k]), lines[k..]);
  }

  lemma {:induction false} AfterFirst(lines: seq<NumberedLine>, subs: seq<PlainSub>, pad: seq<string>)
    requires subs != [] && SubsFine(subs) && IsPadding(pad) && Texts(lines) == FromHeading(subs, pad)
    ensures SubsFine(subs[1..]) && lines != [] && Texts(lines[NextSub(lines, 1)..]) == FromHeading(subs[1..], pad)
  {
    FirstSub(lines, subs, pad);
  }

  /** The first subsection and those after it are all of them. */
  lemma {:induction false} SubsTogether(lines: seq<NumberedLine>, subs: seq<PlainSub>, first: Subsection, rest: seq<NumberedLine>)
    requires subs != [] && SubsFine(subs) && PlainSub(first.title, TrimBlank(Texts(first.lines))) == subs[0]
    requires lines != [] && IsSubHeading(lines[0].text)
    requires var k := NextSub(lines, 1);
      first == Subsection(SubTitle(lines[0].text), lines[1..k]) && rest == lines[k..]
    requires PlainSubs(Subsections(rest)) == subs[1..]
    ensures PlainSubs(Subsections(lines)) == subs
  {
    calc {
      PlainSubs(Subsections(lines));
    == { SubsectionsCons(lines); }
      PlainSubs([first] + Subsections(rest));
    == { PlainSubsFirst(first, Subsections(rest)); }
      PlainHead(first) + PlainSubs(Subsections(rest));
    == { WholeHead(first, subs); }
      [subs[0]] + subs[1..];
    == { HeadAndTail(subs); }
      subs;
    }
  }

  lemma {:induction false} WholeHead(first: Subsection, subs: seq<PlainSub>)
    requires subs != [] && SubsFine(subs) && PlainSub(first.title, TrimBlank(Texts(first.lines))) == subs[0]
    ensures PlainHead(first) == [subs[0]]
  {
    assert SubFine(subs[0]);
  }

  // ----- releases -----

  lemma {:induction false} SectionBack(body: seq<NumberedLine>, s: PlainSection, pad: seq<string>)
    requires SectionFine(s) && IsPadding(pad) && Texts(body) == BodyLines(s) + pad
    ensures PlainSectionOf(SectionOf(s.heading, body)) == s
  {
    var front, gap := if s.leading == [] then [] else [""], Gap(s.subs, pad);
    SplitBody(body, s, pad);
    var k := NextSub(body, 0);
    TrimPadded(front, s.leading, gap);
    if s.subs != [] {
      SubsBack(body[k..], s.subs, pad);
    } else {
      NoTexts(body[k..]);
    }
  }

  lemma {:induction false} SplitBody(body: seq<NumberedLine>, s: PlainSection, pad: seq<string>)
    requires SectionFine(s) && IsPadding(pad) && Texts(body) == BodyLines(s) + pad
    ensures var k, front := NextSub(body, 0), if s.leading == [] then [] else [""];
      Texts(body[..k]) == front + s.leading + Gap(s.subs, pad) && Texts(body[k..]) == FromHeading(s.subs, pad)
  {
    var front, gap := if s.leading == [] then [] else [""], Gap(s.subs, pad);
    BodyShape(s, pad);
    HeadingOrNothing(s.subs, pad);
    NoHeadingsBetween(s.leading, front, gap);
    SplitOwn(body, front + s.leading + gap, FromHeading(s.subs, pad));
  }

  lemma {:induction false} HeadingOrNothing(subs: seq<PlainSub>, pad: seq<string>)
    requires SubsFine(subs) && IsPadding(pad)
    ensures var after := FromHeading(subs, pad); after != [] ==> IsSubHeading(after[0])
  {
    if subs != [] {
      HeadingFirst(subs, pad);
    }
  }

  lemma {:induction false} SplitOwn(lines: seq<NumberedLine>, own: seq<string>, after: seq<string>)
    requires Texts(lines) == [] + own + after && NoSubHeading(own) && (after != [] ==> IsSubHeading(after[0]))
    ensures var k := NextSub(lines, 0); Texts(lines[..k]) == own && Texts(lines[k..]) == after
  {
    SplitTexts(lines, [], own, after);
    SplitAtSub(lines, [], own, after);
    assert [] + own == own;
  }

  lemma {:induction false} BodyShape(s: PlainSection, pad: seq<string>)
    ensures var front := if s.leading == [] then [] else [""];
      BodyLines(s) + pad == [] + (front + s.leading + Gap(s.subs, pad)) + FromHeading(s.subs, pad)
  {
    SubLinesFrom(s.subs, pad);
    var front := if s.leading == [] then [] else [""];
    assert LeadingLines(s.leading) == front + s.leading;
    Regrouped2(front + s.leading, SubLines(s.subs), pad, Gap(s.subs, pad), FromHeading(s.subs, pad));
  }

  lemma {:induction false} Regrouped2<T>(a: seq<T>, b: seq<T>, pad: seq<T>, gap: seq<T>, rest: seq<T>)
    requires b + pad == gap + rest
    ensures a + b + pad == [] + (a + gap) + rest
  {
    assert a + b + pad == a + (b + pad);
    assert [] + (a + gap) + rest == a + (gap + rest);
  }

  /** The lines of the first release end where the next heading stands. */
  lemma {:induction false} FirstRelease(lines: seq<NumberedLine>, sections: seq<PlainSection>)
    requires sections != [] && SectionsFine(sections) && Texts(lines) == ReleaseLines(sections)
    ensures lines != [] && lines[0].text == sections[0].heading && IsReleaseHeading(lines[0].text)
    ensures var k := NextRelease(lines, 1);
      && Texts(lines[1..k]) == BodyLines(sections[0]) + EmptyBefore(sections[1..])
      && Texts(lines[k..]) == ReleaseLines(sections[1..])
  {
    var head, own, after := [sections[0].heading], BodyLines(sections[0]) + EmptyBefore(sections[1..]), ReleaseLines(sections[1..]);
    OwnHasNoRelease(sections);
    if |sections| > 1 {
      ReleaseFirst(sections[1..]);
    }
    SplitRelease(lines, head, own, after);
  }

  lemma {:induction false} SplitRelease(lines: seq<NumberedLine>, head: seq<string>, own: seq<string>, after: seq<string>)
    requires Texts(lines) == head + own + after && NoRelease(own) && (after != [] ==> IsReleaseHeading(after[0]))
    requires |head| == 1
    ensures lines != [] && lines[0].text == head[0]
    ensures var k := NextRelease(lines, 1); Texts(lines[1..k]) == own && Texts(lines[k..]) == after
  {
    SplitTexts(lines, head, own, after);
    SplitAtRelease(lines, head, own, after);
  }

  lemma {:induction false} OwnHasNoRelease(sections: seq<PlainSection>)
    requires sections != [] && SectionsFine(sections)
    ensures NoRelease(BodyLines(sections[0]) + EmptyBefore(sections[1..])) && IsReleaseHeading(sections[0].heading)
  {
    assert SectionFine(sections[0]);
    NoReleaseInside(sections[0]);
    EmptyIsNoHeading();
  }

  lemma {:induction false} ReleaseFirst(sections: seq<PlainSection>)
    requires sections != [] && SectionsFine(sections)
    ensures ReleaseLines(sections) != [] && IsReleaseHeading(ReleaseLines(sections)[0])
  {
    assert SectionFine(sections[0]);
  }

  lemma {:induction false} NoReleaseInside(s: PlainSection)
    requires SectionFine(s)
    ensures NoRelease(BodyLines(s)) && AreLines(BodyLines(s))
  {
    EmptyIsNoHeading();
    NoReleaseInSubs(s.subs);
  }

  lemma {:induction false} NoReleaseInSubs(subs: seq<PlainSub>)
    requires SubsFine(subs)
    ensures NoRelease(SubLines(subs)) && AreLines(SubLines(subs))
    decreases |subs|
  {
    if subs != [] {
      var s := subs[0];
      assert SubFine(s);
      NoReleaseInSubs(subs[1..]);
      EmptyIsNoHeading();
      SubTitleBack(s.title);
      var head := ["", "### " + s.title, ""];
      assert IsLine(head[1]);
      assert SubLines(subs) == head + s.lines + SubLines(subs[1..]);
    }
  }

  lemma {:induction false} PlainSectionsCons(first: Section, rest: seq<Section>)
    ensures PlainSections([first] + rest) == [PlainSectionOf(first)] + PlainSections(rest)
  {
    assert ([first] + rest)[1..] == rest;
  }

  lemma {:induction false} FirstSectionBack(lines: seq<NumberedLine>, sections: seq<PlainSection>)
    requires sections != [] && SectionsFine(sections) && Texts(lines) == ReleaseLines(sections)
    ensures lines != [] && IsReleaseHeading(lines[0].text)
    ensures PlainSectionOf(SectionOf(lines[0].text, lines[1..NextRelease(lines, 1)])) == sections[0]
  {
    FirstRelease(lines, sections);
    assert SectionFine(sections[0]);
    SectionBack(lines[1..NextRelease(lines, 1)], sections[0], EmptyBefore(sections[1..]));
  }

  lemma {:induction false} SectionsBack(lines: seq<NumberedLine>, sections: seq<PlainSection>)
    requires sections != [] && SectionsFine(sections) && Texts(lines) == ReleaseLines(sections)
    ensures lines != [] && IsReleaseHeading(lines[0].text) && PlainSections(Sections(lines)) == sections
    decreases |sections|
  {
    FirstRelease(lines, sections);
    FirstSectionBack(lines, sections);
    var k := NextRelease(lines, 1);
    var first, rest := SectionOf(lines[0].text, lines[1..k]), lines[k..];
    if |sections| > 1 {
      SectionsBack(rest, sections[1..]);
    } else {
      NoTexts(rest);
    }
    SectionsCons(lines);
    PlainSectionsCons(first, Sections(rest));
    HeadAndTail(sections);
  }

  // ----- whole documents -----

  lemma {:induction false} PlainBack(lines: seq<NumberedLine>, p: Plain)
    requires WellFormed(p) && Texts(lines) == RenderedLines(p)
    ensures PlainOf(Parsed(lines)) == p
  {
    var k := NextRelease(lines, 0);
    PrefixBack(lines, p);
    if p.sections != [] {
      SectionsBack(lines[k..], p.sections);
    } else {
      NoTexts(lines[k..]);
    }
  }

  lemma {:induction false} PrefixBack(lines: seq<NumberedLine>, p: Plain)
    requires WellFormed(p) && Texts(lines) == RenderedLines(p)
    ensures var k := NextRelease(lines, 0);
      TrimBlank(Texts(lines[..k])) == p.prefix && Texts(lines[k..]) == ReleaseLines(p.sections)
  {
    EmptyIsNoHeading();
    var gap := if p.prefix == [] then [] else EmptyBefore(p.sections);
    if p.sections != [] {
      ReleaseFirst(p.sections);
    }
    SplitPrefix(lines, p.prefix + gap, ReleaseLines(p.sections));
    TrimPrefix(p.prefix, gap);
  }

  lemma {:induction false} TrimPrefix(prefix: seq<string>, gap: seq<string>)
    requires IsTrimmed(prefix) && IsPadding(gap)
    ensures TrimBlank(prefix + gap) == prefix
  {
    TrimPadded([], prefix, gap);
    assert [] + prefix + gap == prefix + gap;
  }

  lemma {:induction false} SplitPrefix(lines: seq<NumberedLine>, own: seq<string>, after: seq<string>)
    requires Texts(lines) == own + after && NoRelease(own) && (after != [] ==> IsReleaseHeading(after[0]))
    ensures var k := NextRelease(lines, 0); Texts(lines[..k]) == own && Texts(lines[k..]) == after
  {
    assert own + after == [] + own + after;
    SplitTexts(lines, [], own, after);
    SplitAtRelease(lines, [], own, after);
    assert [] + own == own;
  }

  lemma {:induction false} RenderedAreLines(p: Plain)
    requires WellFormed(p)
    ensures AreLines(RenderedLines(p))
  {
    ReleasesAreLines(p.sections);
  }

  lemma {:induction false} ReleasesAreLines(sections: seq<PlainSection>)
    requires SectionsFine(sections)
    ensures AreLines(ReleaseLines(sections))
    decreases |sections|
  {
    if sections != [] {
      assert SectionFine(sections[0]);
      NoReleaseInside(sections[0]);
      ReleasesAreLines(sections[1..]);
    }
  }

  /** Parsing the text of a well-formed document gives the document back. */
  lemma {:induction false} ParseRendered(d: Document)
    requires WellFormed(PlainOf(d))
    ensures PlainOf(Parsed(Number(SplitContent(Rendered(d))))) == PlainOf(d)
  {
    PlainRoundTrip(PlainOf(d), RenderedLines(PlainOf(d)));
  }

  lemma {:induction false} PlainRoundTrip(p: Plain, out: seq<string>)
    requires WellFormed(p) && out == RenderedLines(p)
    ensures PlainOf(Parsed(Number(SplitContent(Join(out) + "\n")))) == p
  {
    RenderedAreLines(p);
    if out == [] {
      EmptyPlain(p);
      EmptyText();
      assert Join(out) + "\n" == "\n";
    } else {
      SplitWritten(out);
      NumberTexts(out);
      PlainBack(Number(out), p);
    }
  }

  lemma {:induction false} EmptyPlain(p: Plain)
    requires RenderedLines(p) == []
    ensures p == Plain([], [])
  {
    assert |RenderedLines(p)| >= |p.prefix| + |ReleaseLines(p.sections)|;
    assert p.sections != [] ==> |ReleaseLines(p.sections)| >= 1;
  }

  lemma {:induction false} NumberTexts(texts: seq<string>)
    ensures Texts(Number(texts)) == texts
  {
  }

  lemma {:induction false} EmptyText()
    ensures SplitContent("\n") == [""] && PlainOf(Parsed(Number([""]))) == Plain([], [])
  {
    EmptyIsNoHeading();
    assert Unify("\n") == "\n" && "\n"[..0] == "";
    assert SplitContent("\n") == SplitOn("") == [""];
    var lines := Number([""]);
    NextReleaseIs(lines, 0, 1);
    assert lines[..1] == lines && Texts(lines) == [""];
    TrimPadded([], [], [""]);
    assert [] + [] + [""] == [""];
  }

  // ----- parsing always gives a well-formed document -----

  predicate FineSub(sub: Subsection) {
    && sub.title != [] && !IsSpace(sub.title[0]) && !IsSpace(sub.title[|sub.title| - 1]) && IsLine(sub.title)
    && IsBody(Texts(sub.lines))
  }

  predicate FineSubs(subs: seq<Subsection>) {
    forall i :: 0 <= i < |subs| ==> FineSub(subs[i])
  }

  predicate FineSection(s: Section) {
    && IsLine(s.heading) && IsReleaseHeading(s.heading) && s.title == ReleaseTitle(s.heading)
    && IsBody(Texts(s.leading)) && FineSubs(s.subsections)
  }

  predicate FineSections(sections: seq<Section>) {
    forall i :: 0 <= i < |sections| ==> FineSection(sections[i])
  }

  lemma {:induction false} FineSubsPlain(subs: seq<Subsection>)
    requires FineSubs(subs)
    ensures SubsFine(PlainSubs(subs))
    decreases |subs|
  {
    if subs != [] {
      FineSubsPlain(subs[1..]);
      FineSubPlain(subs[0]);
      FineCons(subs[0], subs[1..]);
      HeadAndTail(subs);
    }
  }

  lemma {:induction false} FineSubPlain(sub: Subsection)
    requires FineSub(sub)
    ensures SubsFine(PlainHead(sub))
  {
    TrimmedBody(Texts(sub.lines));
  }

  lemma {:induction false} FineSectionPlain(s: Section)
    requires FineSection(s)
    ensures SectionFine(PlainSectionOf(s))
  {
    TrimmedBody(Texts(s.leading));
    FineSubsPlain(s.subsections);
  }

  lemma {:induction false} FineSectionsPlain(sections: seq<Section>)
    requires FineSections(sections)
    ensures SectionsFine(PlainSections(sections))
  {
    PlainLength(sections);
    forall i | 0 <= i < |sections| ensures SectionFine(PlainSections(sections)[i]) {
      PlainSectionAt(sections, i);
      FineSectionPlain(sections[i]);
    }
  }

  lemma {:induction false} ParsedSubsFine(lines: seq<NumberedLine>)
    requires AreLines(Texts(lines)) && NoRelease(Texts(lines)) && (lines != [] ==> IsSubHeading(lines[0].text))
    ensures FineSubs(Subsections(lines))
    decreases |lines|
  {
    if lines != [] {
      var k := NextSub(lines, 1);
      TextsSlice(lines, 1, k);
      TextsSlice(lines, k, |lines|);
      ParsedSubsFine(lines[k..]);
      assert IsLine(Texts(lines)[0]);
      TitleIsFine(lines[0].text);
      BodyOf(lines, 1, k);
      SubsectionsCons(lines);
      FineSubsCons(Subsection(SubTitle(lines[0].text), lines[1..k]), Subsections(lines[k..]));
    }
  }

  lemma {:induction false} FineSubsCons(first: Subsection, rest: seq<Subsection>)
    requires FineSub(first) && FineSubs(rest)
    ensures FineSubs([first] + rest)
  {
  }

  lemma {:induction false} BodyOf(lines: seq<NumberedLine>, i: nat, k: nat)
    requires AreLines(Texts(lines)) && NoRelease(Texts(lines)) && i <= k <= |lines|
    requires forall j :: i <= j < k ==> !IsSubHeading(lines[j].text)
    ensures IsBody(Texts(lines[i..k]))
  {
    forall j | 0 <= j < k - i
      ensures IsLine(Texts(lines[i..k])[j]) && !IsReleaseHeading(Texts(lines[i..k])[j]) && !IsSubHeading(Texts(lines[i..k])[j])
    {
      assert Texts(lines[i..k])[j] == lines[i + j].text == Texts(lines)[i + j];
    }
  }

  lemma {:induction false} ParsedSectionFine(heading: string, body: seq<NumberedLine>)
    requires IsReleaseHeading(heading) && IsLine(heading) && AreLines(Texts(body)) && NoRelease(Texts(body))
    ensures FineSection(SectionOf(heading, body))
  {
    var k := NextSub(body, 0);
    BodyOf(body, 0, k);
    TextsSlice(body, k, |body|);
    assert body[0..k] == body[..k];
    ParsedSubsFine(body[k..]);
  }

  lemma {:induction false} ParsedSectionsFine(lines: seq<NumberedLine>)
    requires AreLines(Texts(lines)) && (lines != [] ==> IsReleaseHeading(lines[0].text))
    ensures FineSections(Sections(lines))
    decreases |lines|
  {
    if lines != [] {
      var k := NextRelease(lines, 1);
      TextsSlice(lines, 1, k);
      TextsSlice(lines, k, |lines|);
      assert IsLine(Texts(lines)[0]);
      forall j | 0 <= j < k - 1 ensures !IsReleaseHeading(Texts(lines[1..k])[j]) {
        assert Texts(lines[1..k])[j] == lines[1 + j].text;
      }
      ParsedSectionFine(lines[0].text, lines[1..k]);
      ParsedSectionsFine(lines[k..]);
    }
  }

  lemma {:induction false} TrimmedBody(lines: seq<string>)
    requires IsBody(lines)
    ensures IsBody(TrimBlank(lines)) && IsTrimmed(TrimBlank(lines))
  {
    TrimBlankIsTrimmed(lines);
    var start := TrimBlankIsPart(lines);
    BodyWithin(lines, start, TrimBlank(lines));
  }

  lemma {:induction false} BodyWithin(lines: seq<string>, start: nat, part: seq<string>)
    requires IsBody(lines) && start + |part| <= |lines| && part == lines[start..start + |part|]
    ensures IsBody(part)
  {
  }

  lemma {:induction false} TitleIsFine(heading: string)
    requires IsSubHeading(heading) && IsLine(heading)
    ensures var t := SubTitle(heading); t != [] && !IsSpace(t[0]) && !IsSpace(t[|t| - 1]) && IsLine(t)
  {
    BlankIsTrimmed(heading[3..]);
    TrimIsPart(heading[3..]);
  }

  lemma {:induction false} TrimStartIsPart(s: string)
    ensures forall c :: c in TrimStart(s) ==> c in s
  {
    if s != [] && IsSpace(s[0]) {
      TrimStartIsPart(s[1..]);
    }
  }

  lemma {:induction false} TrimIsPart(s: string)
    ensures forall c :: c in Trim(s) ==> c in s
  {
    TrimStartIsPart(s);
  }

  lemma {:induction false} PlainSectionAt(sections: seq<Section>, i: nat)
    requires i < |sections|
    ensures |PlainSections(sections)| == |sections| && PlainSections(sections)[i] == PlainSectionOf(sections[i])
    decreases |sections|
  {
    if |sections| > 1 {
      PlainSectionAt(sections[1..], if i == 0 then 0 else i - 1);
    }
  }

  lemma {:induction false} PlainLength(sections: seq<Section>)
    ensures |PlainSections(sections)| == |sections|
    decreases |sections|
  {
    if sections != [] {
      PlainLength(sections[1..]);
    }
  }

  lemma {:induction false} ParsedIsWellFormed(content: string)
    ensures WellFormed(PlainOf(Parsed(Number(SplitContent(content)))))
  {
    SplitContentLines(content);
    var lines := Number(SplitContent(content));
    assert Texts(lines) == SplitContent(content);
    var k := NextRelease(lines, 0);
    PrefixIsPreamble(lines);
    TextsSlice(lines, k, |lines|);
    ParsedSectionsFine(lines[k..]);
    FineSectionsPlain(Sections(lines[k..]));
  }

  lemma {:induction false} PrefixIsPreamble(lines: seq<NumberedLine>)
    requires AreLines(Texts(lines))
    ensures var t := TrimBlank(Texts(lines[..NextRelease(lines, 0)])); IsTrimmed(t) && IsPreamble(t)
  {
    var k := NextRelease(lines, 0);
    forall i | 0 <= i < k ensures IsLine(Texts(lines[..k])[i]) && !IsReleaseHeading(Texts(lines[..k])[i]) {
      assert Texts(lines[..k])[i] == Texts(lines)[i] == lines[i].text;
    }
    TrimmedPreamble(Texts(lines[..k]));
  }

  lemma {:induction false} TrimmedPreamble(texts: seq<string>)
    requires IsPreamble(texts)
    ensures IsTrimmed(TrimBlank(texts)) && IsPreamble(TrimBlank(texts))
  {
    TrimBlankIsTrimmed(texts);
    var start := TrimBlankIsPart(texts);
    PreambleWithin(texts, start, TrimBlank(texts));
  }

  lemma {:induction false} PreambleWithin(texts: seq<string>, start: nat, part: seq<string>)
    requires IsPreamble(texts) && start + |part| <= |texts| && part == texts[start..start + |part|]
    ensures IsPreamble(part)
  {
  }

  /** Whatever the text, rendering what was parsed is a fixed point after one application. */
  lemma {:induction false} RenderParseIsStable(content: string)
    ensures var once := Rendered(Parsed(Number(SplitContent(content))));
      Rendered(Parsed(Number(SplitContent(once)))) == once
  {
    ParsedIsWellFormed(content);
    ParseRendered(Parsed(Number(SplitContent(content))));
  }

  lemma {:induction false} FineCons(first: Subsection, rest: seq<Subsection>)
    requires SubsFine(PlainSubs(rest)) && SubsFine(PlainHead(first))
    ensures SubsFine(PlainSubs([first] + rest))
  {
    PlainSubsFirst(first, rest);
  }
}
