/** The written changelog: order, text and receiving section of the fixed document, read back from the output text. */
module ChangelogOutput {
  import opened ChangelogLines
  import opened ChangelogDocument
  import opened ChangelogItems
  import opened ChangelogPromotion
  import opened ChangelogFix
  import opened ChangelogKept
  import opened ChangelogOrder
  import opened ChangelogRoundTrip
  import opened ChangelogContent
  import opened ChangelogPlaces
  import opened ChangelogUnreleased

  /** The sections of the text that the fixer writes. */
  ghost function Output(content: string, promotable: set<nat>, history: set<Key>, rank: Rank): seq<Section> {
    ParsedText(FixedText(content, promotable, history, rank)).sections
  }

  /**
   * The output has the sections of the input, and an Unreleased one in front if one had to be created: first the
   * Unreleased ones, in their order, then the releases from the most recent on, equal ones in their order.
   */
  lemma {:induction false} OutputInOrder(content: string, promotable: set<nat>, history: set<Key>, rank: Rank)
    ensures var sections := ParsedText(content).sections;
      var o := Outline(Output(content, promotable, history, rank));
      InOrder(o, rank) && SameOrder(o, CreatedEntry(sections, StartsIn(promotable)) + Outline(sections), rank)
  {
    OutputMatches(content, promotable, history, rank);
    MatchingOutline(Output(content, promotable, history, rank), Fixed(ParsedText(content).sections, promotable, history, rank));
    FixedInOrder(ParsedText(content).sections, promotable, history, rank);
  }

  lemma {:induction false} MatchingOutline(output: seq<Section>, fixed: seq<Section>)
    requires Matching(output, fixed)
    ensures Outline(output) == Outline(fixed)
  {
    forall i | 0 <= i < |fixed| ensures Outline(output)[i] == Outline(fixed)[i] {
      assert SameContent(output[i], fixed[i]);
    }
  }

  /** The text in front of the first release stays. */
  lemma {:induction false} OutputPrefix(content: string, promotable: set<nat>, history: set<Key>, rank: Rank)
    ensures TrimBlank(Texts(ParsedText(FixedText(content, promotable, history, rank)).prefix))
      == TrimBlank(Texts(ParsedText(content).prefix))
  {
    FixedTextParses(content, promotable, history, rank);
  }

  // ----- the first section of the output -----

  /**
   * The first section of the output is Unreleased. Under every title it has its items of before, in order, without those
   * that are released or in the history, and then, in order, those promoted under the title that it does not have yet.
   */
  lemma {:induction false} UnreleasedTextGets(content: string, promotable: set<nat>, history: set<Key>, rank: Rank, gone: set<Key>, title: string)
    requires var sections := ParsedText(content).sections;
      AllStart(sections) && (Promoted(sections, StartsIn(promotable)) != [] || FirstUnreleased(sections) < |sections|)
    requires forall key :: key in gone <==> IsReleased(ParsedText(content).sections, key) || key in history
    ensures var sections, output := ParsedText(content).sections, Output(content, promotable, history, rank);
      output != [] && output[0].title == UNRELEASED
      && KeepsAndGains(KeysUnder(output[0].subsections, title), OwnSubs(sections), gone, title, Promoted(sections, StartsIn(promotable)))
  {
    var sections := ParsedText(content).sections;
    OutputMatches(content, promotable, history, rank);
    UnreleasedGets(sections, promotable, history, rank, gone, title);
    assert SameContent(Output(content, promotable, history, rank)[0], Fixed(sections, promotable, history, rank)[0]);
  }

  /** The released items and the history, as one set. */
  lemma {:induction false} GoneAre(sections: seq<Section>, history: set<Key>)
    ensures forall key :: key in ReleasedKeys(sections) + history <==> IsReleased(sections, key) || key in history
  {
    forall key ensures key in ReleasedKeys(sections) + history <==> IsReleased(sections, key) || key in history {
      ReleasedKeysAre(sections, key);
    }
  }

  /** An item is in the first section afterwards iff it was there and neither a release nor the history has it, or it was promoted. */
  lemma {:induction false} UnreleasedTextHas(content: string, promotable: set<nat>, history: set<Key>, rank: Rank, title: string, key: Key)
    requires var sections := ParsedText(content).sections;
      AllStart(sections) && (Promoted(sections, StartsIn(promotable)) != [] || FirstUnreleased(sections) < |sections|)
    ensures var sections, output := ParsedText(content).sections, Output(content, promotable, history, rank);
      output != [] && output[0].title == UNRELEASED
      && (key in KeysUnder(output[0].subsections, title) <==>
            (key in KeysUnder(OwnSubs(sections), title) && !IsReleased(sections, key) && key !in history)
            || (title, key) in Promoted(sections, StartsIn(promotable)))
  {
    var sections := ParsedText(content).sections;
    var gone := ReleasedKeys(sections) + history;
    GoneAre(sections, history);
    UnreleasedTextGets(content, promotable, history, rank, gone, title);
    ThereAfterwards(KeysUnder(Output(content, promotable, history, rank)[0].subsections, title), OwnSubs(sections), gone, title,
      Promoted(sections, StartsIn(promotable)), key);
  }

  /** A bullet on a line to be promoted takes its item, up to the next bullet, from its release to the front of the output. */
  lemma {:induction false} BulletIsPromoted(content: string, promotable: set<nat>, history: set<Key>, rank: Rank, i: nat, j: nat, n: nat, key: Key)
    requires var sections := ParsedText(content).sections;
      && AllStart(sections) && i < |sections| && sections[i].title != UNRELEASED && j < |sections[i].subsections|
      && n in promotable && ItemAt(sections[i].subsections[j].lines, n, key)
    ensures 1 <= n <= |SplitContent(content)|
    ensures var sections, output := ParsedText(content).sections, Output(content, promotable, history, rank);
      output != [] && output[0].title == UNRELEASED && key in KeysUnder(output[0].subsections, sections[i].subsections[j].title)
  {
    var sections := ParsedText(content).sections;
    var title := sections[i].subsections[j].title;
    ParsedFromText(content);
    assert BeginsAtOne(sections[i].subsections, promotable, title, key);
    PromotedByLine(sections, promotable, title, key);
    UnreleasedTextHas(content, promotable, history, rank, title, key);
  }

  // ----- all text of a release -----

  function PlainOwn(sub: PlainSub, title: string): seq<string> {
    if sub.title == title then NonBlank(sub.lines) else []
  }

  function PlainLines(subs: seq<PlainSub>, title: string): seq<string> {
    if subs == [] then [] else PlainOwn(subs[0], title) + PlainLines(subs[1..], title)
  }

  lemma {:induction false} PlainLinesCons(sub: Subsection, rest: seq<Subsection>, title: string)
    ensures PlainLines(PlainSubs([sub] + rest), title) == OwnLines(sub, title) + PlainLines(PlainSubs(rest), title)
  {
    var lines := TrimBlank(Texts(sub.lines));
    NonBlankTrimmed(Texts(sub.lines));
    PlainSubsFirst(sub, rest);
    if lines == [] {
      assert PlainHead(sub) + PlainSubs(rest) == PlainSubs(rest);
    } else {
      assert ([PlainSub(sub.title, lines)] + PlainSubs(rest))[1..] == PlainSubs(rest);
    }
  }

  lemma {:induction false} PlainLinesAre(subs: seq<Subsection>, title: string)
    ensures PlainLines(PlainSubs(subs), title) == LinesUnder(subs, title)
    decreases |subs|
  {
    if subs != [] {
      PlainLinesAre(subs[1..], title);
      PlainLinesCons(subs[0], subs[1..], title);
      assert subs == [subs[0]] + subs[1..];
    }
  }

  /** The heading, the text below it, and the lines under every title that are not blank are those of `s` cut so. */
  ghost predicate KeepsText(r: Section, s: Section, subs: seq<Subsection>) {
    && r.heading == s.heading && r.title == s.title && TrimBlank(Texts(r.leading)) == TrimBlank(Texts(s.leading))
    && forall title :: LinesUnder(r.subsections, title) == LinesUnder(subs, title)
  }

  lemma {:induction false} NormalKeepsText(s: Section)
    ensures KeepsText(NormalSection(s), s, s.subsections)
  {
    TrimBlankIsTrimmed(Texts(s.leading));
    TrimTrimmed(TrimBlank(Texts(s.leading)));
    forall title ensures LinesUnder(NormalSection(s).subsections, title) == LinesUnder(s.subsections, title) {
      NormalSectionLines(s, title);
    }
  }

  ghost predicate HasTextOf(sections: seq<Section>, s: Section, subs: seq<Subsection>) {
    exists r :: r in sections && KeepsText(r, s, subs)
  }

  lemma {:induction false} SectionArrives(p: seq<Section>, rank: Rank, k: nat)
    requires k < |p|
    ensures HasTextOf(Sorted(Normalized(p), rank), p[k], p[k].subsections)
  {
    NormalizedAt(p, k);
    NormalKeepsText(p[k]);
    assert Normalized(p)[k] in Normalized(p);
    SortedHas(Normalized(p), rank, NormalSection(p[k]));
  }

  /**
   * Every section but the receiving one is in the result with all its text: a release without the lines of the items that
   * were promoted, a further Unreleased section as it was.
   */
  lemma {:induction false} SectionKeepsText(sections: seq<Section>, promotable: set<nat>, history: set<Key>, rank: Rank, i: nat)
    requires i < |sections| && i != FirstUnreleased(sections)
    ensures HasTextOf(Fixed(sections, promotable, history, rank), sections[i],
      if sections[i].title == UNRELEASED then sections[i].subsections else CutSubs(sections[i].subsections, StartsIn(promotable)))
  {
    var choice, dropped := StartsIn(promotable), DropDuplicates(sections, history);
    DroppedSame(sections, history, choice);
    PromoteAt(dropped, choice, i);
    CutArrivesWhole(Promote(dropped, choice), rank, i + Shift(dropped, choice), sections[i],
      if sections[i].title == UNRELEASED then sections[i].subsections else CutSubs(sections[i].subsections, choice));
  }

  lemma {:induction false} CutArrivesWhole(p: seq<Section>, rank: Rank, k: nat, s: Section, subs: seq<Subsection>)
    requires k < |p| && p[k] == s.(subsections := subs)
    ensures HasTextOf(Sorted(Normalized(p), rank), s, subs)
  {
    SectionArrives(p, rank, k);
    var r :| r in Sorted(Normalized(p), rank) && KeepsText(r, p[k], p[k].subsections);
    assert KeepsText(r, s, subs);
  }

  lemma {:induction false} PlainKeepsText(q: Section, r: Section, s: Section, subs: seq<Subsection>)
    requires PlainSectionOf(q) == PlainSectionOf(r) && q.title == r.title && KeepsText(r, s, subs)
    ensures KeepsText(q, s, subs)
  {
    forall title ensures LinesUnder(q.subsections, title) == LinesUnder(r.subsections, title) {
      PlainLinesAre(q.subsections, title);
      PlainLinesAre(r.subsections, title);
    }
  }

  /** From text to text, every section but the receiving one keeps its text, whatever it consists of. */
  lemma {:induction false} TextIsKept(content: string, promotable: set<nat>, history: set<Key>, rank: Rank, i: nat)
    requires var sections := ParsedText(content).sections; i < |sections| && i != FirstUnreleased(sections)
    ensures var s := ParsedText(content).sections[i];
      HasTextOf(Output(content, promotable, history, rank), s,
        if s.title == UNRELEASED then s.subsections else CutSubs(s.subsections, StartsIn(promotable)))
  {
    var sections := ParsedText(content).sections;
    var s, fixed, output := sections[i], Fixed(sections, promotable, history, rank), Output(content, promotable, history, rank);
    var subs := if s.title == UNRELEASED then s.subsections else CutSubs(s.subsections, StartsIn(promotable));
    SectionKeepsText(sections, promotable, history, rank, i);
    FixedTextParses(content, promotable, history, rank);
    OutputMatches(content, promotable, history, rank);
    OutputHasText(output, fixed, s, subs);
  }

  lemma {:induction false} OutputHasText(output: seq<Section>, fixed: seq<Section>, s: Section, subs: seq<Subsection>)
    requires PlainSections(output) == PlainSections(fixed) && Matching(output, fixed) && HasTextOf(fixed, s, subs)
    ensures HasTextOf(output, s, subs)
  {
    var j: nat :| j < |fixed| && KeepsText(fixed[j], s, subs);
    PlainSectionAt(output, j);
    PlainSectionAt(fixed, j);
    assert SameContent(output[j], fixed[j]);
    PlainKeepsText(output[j], fixed[j], s, subs);
  }
}
