/** The fixer from text to text: every item of the input is an item of the output. */
module ChangelogContent {
  import opened ChangelogText
  import opened ChangelogLines
  import opened ChangelogDocument
  import opened ChangelogRoundTrip
  import opened ChangelogItems
  import opened ChangelogCut
  import opened ChangelogPromotion
  import opened ChangelogFix
  import opened ChangelogFixer
  import opened ChangelogRender
  import opened StableSort

  // ----- line numbers -----

  predicate NumbersIncrease(sections: seq<Section>) {
    forall i, j :: 0 <= i < |sections| && 0 <= j < |sections[i].subsections| ==> Increasing(sections[i].subsections[j].lines)
  }

  lemma {:induction false} SubsectionNumbers(lines: seq<NumberedLine>)
    requires Increasing(lines) && (lines != [] ==> IsSubHeading(lines[0].text))
    ensures forall j :: 0 <= j < |Subsections(lines)| ==> Increasing(Subsections(lines)[j].lines)
    decreases |lines|
  {
    if lines != [] {
      SubsectionNumbers(lines[NextSub(lines, 1)..]);
    }
  }

  lemma {:induction false} SectionNumbers(lines: seq<NumberedLine>)
    requires Increasing(lines) && (lines != [] ==> IsReleaseHeading(lines[0].text))
    ensures NumbersIncrease(Sections(lines))
    decreases |lines|
  {
    if lines != [] {
      var k := NextRelease(lines, 1);
      SectionNumbers(lines[k..]);
      BodyNumbers(lines[0].text, lines[1..k]);
      SectionsCons(lines);
    }
  }

  lemma {:induction false} BodyNumbers(heading: string, body: seq<NumberedLine>)
    requires IsReleaseHeading(heading) && Increasing(body)
    ensures NumbersIncrease([SectionOf(heading, body)])
  {
    SubsectionNumbers(body[NextSub(body, 0)..]);
  }

  // ----- every step keeps them so -----

  lemma {:induction false} BodySlice(texts: seq<string>, k: nat)
    requires IsBody(texts) && k <= |texts|
    ensures IsBody(texts[..k]) && IsBody(texts[k..])
  {
  }

  lemma {:induction false} BodyConcat(a: seq<string>, b: seq<string>)
    requires IsBody(a) && IsBody(b)
    ensures IsBody(a + b)
  {
  }

  lemma {:induction false} BodyParts(lines: seq<NumberedLine>, k: nat)
    requires IsBody(Texts(lines)) && k <= |lines|
    ensures IsBody(Texts(lines[..k])) && IsBody(Texts(lines[k..]))
  {
    BodySlice(Texts(lines), k);
    TextsSlice(lines, k, |lines|);
    assert Texts(lines[..k]) == Texts(lines)[..k];
  }

  lemma {:induction false} BodyGlued(a: seq<NumberedLine>, b: seq<NumberedLine>)
    requires IsBody(Texts(a)) && IsBody(Texts(b))
    ensures IsBody(Texts(a + b))
  {
    TextsConcat(a, b);
    BodyConcat(Texts(a), Texts(b));
  }

  lemma {:induction false} CutBody(lines: seq<NumberedLine>, choice: Choice)
    requires IsBody(Texts(lines))
    ensures IsBody(Texts(Cut(lines, choice)))
    decreases |lines|
  {
    if lines == [] {
    } else if !IsBullet(lines[0].text) {
      BodyParts(lines, 1);
      CutBody(lines[1..], choice);
      BodyGlued(lines[..1], Cut(lines[1..], choice));
      assert lines[..1] == [lines[0]];
    } else {
      var k := NextBullet(Texts(lines), 1);
      BodyParts(lines, k);
      CutBody(lines[k..], choice);
      BodyGlued(lines[..k], Cut(lines[k..], choice));
      assert [] + Cut(lines[k..], choice) == Cut(lines[k..], choice);
    }
  }

  lemma {:induction false} AppendedBody(target: seq<string>, source: seq<string>)
    requires IsBody(target) && IsBody(source)
    ensures IsBody(Appended(target, source))
  {
    TrimmedBody(target);
    TrimmedBody(source);
    if TrimBlank(source) != [] {
      JoinedBody(TrimBlank(target), TrimBlank(source));
    }
  }

  lemma {:induction false} JoinedBody(e: seq<string>, s: seq<string>)
    requires IsBody(e) && IsBody(s) && s != []
    ensures IsBody(Joined(e, s))
  {
    EmptyIsNoHeading();
    var gap := if e != [] && IsBullet(e[|e| - 1]) && IsBullet(s[0]) then [] else [""];
    BodyConcat(e, gap);
    BodyConcat(e + gap, s);
  }

  predicate AreBodies(keys: seq<Key>) {
    forall i :: 0 <= i < |keys| ==> IsBody(keys[i])
  }

  lemma {:induction false} KeysBody(texts: seq<string>)
    requires IsBody(texts)
    ensures AreBodies(Keys(texts))
    decreases |texts|
  {
    if texts == [] {
    } else if !IsBullet(texts[0]) {
      BodySlice(texts, 1);
      KeysBody(texts[1..]);
    } else {
      var k := NextBullet(texts, 1);
      BodySlice(texts, k);
      KeysBody(texts[k..]);
      TrimmedBody(texts[..k]);
      BodiesCons(TrimBlank(texts[..k]), Keys(texts[k..]));
    }
  }

  lemma {:induction false} BodiesCons(first: Key, rest: seq<Key>)
    requires IsBody(first) && AreBodies(rest)
    ensures AreBodies([first] + rest)
  {
  }

  lemma {:induction false} FlattenBody(keys: seq<Key>)
    requires forall i :: 0 <= i < |keys| ==> IsBody(keys[i])
    ensures IsBody(Flatten(keys))
    decreases |keys|
  {
    if keys != [] {
      FlattenBody(keys[1..]);
    }
  }

  lemma {:induction false} CompactBody(texts: seq<string>)
    requires IsBody(texts)
    ensures IsBody(Compact(texts))
  {
    TrimmedBody(texts);
    KeysBody(TrimBlank(texts));
    FlattenBody(Keys(TrimBlank(texts)));
  }

  lemma {:induction false} CutSubsFine(subs: seq<Subsection>, choice: Choice)
    requires FineSubs(subs)
    ensures FineSubs(CutSubs(subs, choice))
  {
    CutSubsLength(subs, choice);
    forall i | 0 <= i < |subs| ensures FineSub(CutSubs(subs, choice)[i]) {
      CutSubsAt(subs, choice, i);
      assert FineSub(subs[i]);
      CutBody(subs[i].lines, choice);
    }
  }

  lemma {:induction false} AppendToFine(subs: seq<Subsection>, j: nat, source: seq<string>)
    requires FineSubs(subs) && j < |subs| && IsBody(source)
    ensures FineSubs(AppendTo(subs, j, source))
  {
    assert FineSub(subs[j]);
    AppendedBody(Texts(subs[j].lines), source);
  }

  predicate FineTitle(title: string) {
    title != [] && !IsSpace(title[0]) && !IsSpace(title[|title| - 1]) && IsLine(title)
  }

  predicate FineAdded(added: seq<(string, Key)>) {
    forall i :: 0 <= i < |added| ==> FineTitle(added[i].0) && IsBody(added[i].1)
  }

  lemma {:induction false} AddItemFine(subs: seq<Subsection>, title: string, key: Key)
    requires FineSubs(subs) && FineTitle(title) && IsBody(key)
    ensures FineSubs(AddItem(subs, title, key))
  {
    assert IsBody(Texts(Subsection(title, []).lines));
    AppendToFine(Ensured(subs, title), LastWith(subs, title), key);
  }

  lemma {:induction false} AddAllFine(subs: seq<Subsection>, added: seq<(string, Key)>)
    requires FineSubs(subs) && FineAdded(added)
    ensures FineSubs(AddAll(subs, added))
    decreases |added|
  {
    if added != [] {
      AddAllFine(subs, added[..|added| - 1]);
      AddItemFine(AddAll(subs, added[..|added| - 1]), added[|added| - 1].0, added[|added| - 1].1);
    }
  }

  lemma {:induction false} ChosenFromFine(subs: seq<Subsection>, choice: Choice)
    requires FineSubs(subs)
    ensures FineAdded(ChosenFrom(subs, choice))
    decreases |subs|
  {
    if subs != [] {
      ChosenFromFine(subs[1..], choice);
      TitledFine(subs[0], choice);
    }
  }

  lemma {:induction false} TitledFine(sub: Subsection, choice: Choice)
    requires FineSub(sub)
    ensures FineAdded(Titled(sub.title, Chosen(Items(sub.lines), choice)))
  {
    var items := Items(sub.lines);
    var chosen := Chosen(items, choice);
    KeysBody(Texts(sub.lines));
    ItemsKeys(sub.lines);
    ChosenAreItems(items, choice);
    forall i | 0 <= i < |chosen| ensures IsBody(chosen[i].lines) {
      var j :| 0 <= j < |items| && items[j] == chosen[i];
      assert KeysOf(items)[j] == chosen[i].lines;
    }
  }

  lemma {:induction false} PromotedFine(sections: seq<Section>, choice: Choice)
    requires FineSections(sections)
    ensures FineAdded(Promoted(sections, choice))
    decreases |sections|
  {
    if sections != [] {
      assert FineSection(sections[0]);
      PromotedFine(sections[1..], choice);
      ChosenFromFine(sections[0].subsections, choice);
    }
  }

  lemma {:induction false} AddNormalFine(acc: seq<Subsection>, sub: Subsection)
    requires FineSubs(acc) && FineSub(sub)
    ensures FineSubs(AddNormal(acc, sub))
  {
    TrimmedBody(Texts(sub.lines));
    CompactBody(TrimBlank(Texts(sub.lines)));
    AddTextFine(acc, sub.title, Compact(TrimBlank(Texts(sub.lines))));
  }

  lemma {:induction false} AddTextFine(acc: seq<Subsection>, title: string, t: seq<string>)
    requires FineSubs(acc) && FineTitle(title) && IsBody(t)
    ensures var j := LastWith(acc, title);
      FineSubs(if t == [] then acc else if j < |acc| then AppendTo(acc, j, t) else acc + [Subsection(title, Synthetic(t))])
  {
    var j := LastWith(acc, title);
    if j < |acc| {
      AppendToFine(acc, j, t);
    }
  }

  lemma {:induction false} NormalFine(subs: seq<Subsection>)
    requires FineSubs(subs)
    ensures FineSubs(NormalSubs(subs))
    decreases |subs|
  {
    if subs != [] {
      NormalFine(subs[..|subs| - 1]);
      AddNormalFine(NormalSubs(subs[..|subs| - 1]), subs[|subs| - 1]);
    }
  }

  lemma {:induction false} SortedFine(subs: seq<Subsection>)
    requires FineSubs(subs)
    ensures FineSubs(SortDesc(subs, TitleRank))
  {
    SortIsDescending(subs, TitleRank);
    var sorted := SortDesc(subs, TitleRank);
    forall i | 0 <= i < |sorted| ensures FineSub(sorted[i]) {
      assert sorted[i] in multiset(sorted);
      assert sorted[i] in subs;
    }
  }

  lemma {:induction false} NormalSectionFine(s: Section)
    requires FineSection(s)
    ensures FineSection(NormalSection(s))
  {
    TrimmedBody(Texts(s.leading));
    NormalFine(s.subsections);
    SortedFine(NormalSubs(s.subsections));
  }

  // ----- the sections in between -----

  lemma {:induction false} DroppedFine(sections: seq<Section>, history: set<Key>)
    requires FineSections(sections)
    ensures FineSections(DropDuplicates(sections, history))
  {
    var u := FirstUnreleased(sections);
    if u < |sections| {
      assert FineSection(sections[u]);
      CutSubsFine(sections[u].subsections, IsOneOf(ReleasedKeys(sections) + history));
    }
  }

  lemma {:induction false} CutReleasedFine(sections: seq<Section>, choice: Choice)
    requires FineSections(sections)
    ensures FineSections(CutReleased(sections, choice))
  {
    CutReleasedFirst(sections, choice);
    forall i | 0 <= i < |sections| ensures FineSection(CutReleased(sections, choice)[i]) {
      CutReleasedAt(sections, choice, i);
      assert FineSection(sections[i]);
      CutSubsFine(sections[i].subsections, choice);
    }
  }

  lemma {:induction false} WithAddedFine(sections: seq<Section>, added: seq<(string, Key)>)
    requires FineSections(sections) && FineAdded(added)
    ensures FineSections(WithAdded(sections, added))
  {
    var u := FirstUnreleased(sections);
    if u < |sections| {
      assert FineSection(sections[u]);
      AddAllFine(sections[u].subsections, added);
    } else {
      AddAllFine([], added);
      NewHeading();
    }
  }

  lemma {:induction false} NewHeading()
    ensures IsReleaseHeading("## [Unreleased]") && IsLine("## [Unreleased]") && ReleaseTitle("## [Unreleased]") == UNRELEASED
  {
    var h := "## [Unreleased]";
    assert |h| == 15 && h[14] == ']' && h[4] == 'U' && h[5] == 'n' && h[6] == 'r' && h[7] == 'e' && h[8] == 'l';
    assert h[9] == 'e' && h[10] == 'a' && h[11] == 's' && h[12] == 'e' && h[13] == 'd';
    assert ClosingBracket(h, 14) == 14 == ClosingBracket(h, 13) == ClosingBracket(h, 12) == ClosingBracket(h, 11);
    assert ClosingBracket(h, 10) == 14 == ClosingBracket(h, 9) == ClosingBracket(h, 8) == ClosingBracket(h, 7);
    assert ClosingBracket(h, 6) == 14 == ClosingBracket(h, 5) == ClosingBracket(h, 4);
    assert h[..4] == "## [" && h[4..14] == "Unreleased";
  }

  lemma {:induction false} NormalizedFine(sections: seq<Section>)
    requires FineSections(sections)
    ensures FineSections(Normalized(sections))
  {
    forall i | 0 <= i < |Normalized(sections)| ensures FineSection(Normalized(sections)[i]) {
      if sections != [] {
        NormalizedAt(sections, 0);
        NormalizedAt(sections, i);
        NormalSectionFine(sections[i]);
      }
    }
  }

  lemma {:induction false} SortedSectionsFine(sections: seq<Section>, rank: Rank)
    requires FineSections(sections)
    ensures FineSections(Sorted(sections, rank))
  {
    SortedElements(sections, rank);
    var sorted := Sorted(sections, rank);
    forall i | 0 <= i < |sorted| ensures FineSection(sorted[i]) {
      assert sorted[i] in multiset(sorted);
      assert sorted[i] in sections;
    }
  }

  lemma {:induction false} FixedFine(sections: seq<Section>, promotable: set<nat>, history: set<Key>, rank: Rank)
    requires FineSections(sections)
    ensures FineSections(Fixed(sections, promotable, history, rank))
  {
    var dropped, choice := DropDuplicates(sections, history), StartsIn(promotable);
    DroppedFine(sections, history);
    CutReleasedFine(dropped, choice);
    PromotedFine(dropped, choice);
    WithAddedFine(CutReleased(dropped, choice), Promoted(dropped, choice));
    NormalizedFine(Promote(dropped, choice));
    SortedSectionsFine(Normalized(Promote(dropped, choice)), rank);
  }

  // ----- text to text -----

  function ParsedText(content: string): Document {
    Parsed(Number(SplitContent(content)))
  }

  function FixedDocument(content: string, promotable: set<nat>, history: set<Key>, rank: Rank): Document {
    var d := ParsedText(content);
    Document(d.prefix, Fixed(d.sections, promotable, history, rank))
  }

  function FixedText(content: string, promotable: set<nat>, history: set<Key>, rank: Rank): string {
    Rendered(FixedDocument(content, promotable, history, rank))
  }

  lemma {:induction false} ParsedTextFine(content: string)
    ensures FineSections(ParsedText(content).sections) && NumbersIncrease(ParsedText(content).sections)
  {
    SplitContentLines(content);
    var lines := Number(SplitContent(content));
    NumberTexts(SplitContent(content));
    var k := NextRelease(lines, 0);
    TextsSlice(lines, k, |lines|);
    ParsedSectionsFine(lines[k..]);
    SectionNumbers(lines[k..]);
  }

  method FixChangelogContent(content: string, promotable: set<nat>, history: set<Key>, rank: Rank) returns (fixed: string)
    ensures fixed == FixedText(content, promotable, history, rank)
  {
    var d := ParseChangelog(content);
    ParsedTextFine(content);
    var sections := FixSections(d.sections, promotable, history, rank);
    FixedFine(d.sections, promotable, history, rank);
    assert forall i :: 0 <= i < |sections| ==> FineSection(sections[i]);
    HeadingsNotEmpty(sections);
    fixed := RenderChangelog(Document(d.prefix, sections));
  }

  lemma {:induction false} HeadingsNotEmpty(sections: seq<Section>)
    requires FineSections(sections)
    ensures forall i :: 0 <= i < |sections| ==> sections[i].heading != ""
  {
  }

  /** Parsing the output gives the fixed document, up to line numbers and blank lines. */
  lemma {:induction false} FixedTextParses(content: string, promotable: set<nat>, history: set<Key>, rank: Rank)
    ensures PlainOf(ParsedText(FixedText(content, promotable, history, rank))) == PlainOf(FixedDocument(content, promotable, history, rank))
  {
    var d := FixedDocument(content, promotable, history, rank);
    ParsedTextFine(content);
    ParsedIsWellFormed(content);
    FixedFine(ParsedText(content).sections, promotable, history, rank);
    FineSectionsPlain(d.sections);
    ParseRendered(d);
  }

  /** The items under a title, as far as the plain document goes. */
  function PlainKeys(subs: seq<PlainSub>, title: string): seq<Key> {
    if subs == [] then [] else (if subs[0].title == title then Keys(subs[0].lines) else []) + PlainKeys(subs[1..], title)
  }

  lemma {:induction false} PlainKeysCons(sub: Subsection, rest: seq<Subsection>, title: string)
    ensures PlainKeys(PlainSubs([sub] + rest), title)
      == (if sub.title == title then Keys(Texts(sub.lines)) else []) + PlainKeys(PlainSubs(rest), title)
  {
    var lines := TrimBlank(Texts(sub.lines));
    assert ([sub] + rest)[1..] == rest;
    KeysTrimmed(Texts(sub.lines));
    if lines == [] {
      NoKeys(lines);
      assert [] + PlainSubs(rest) == PlainSubs(rest);
      assert [] + PlainKeys(PlainSubs(rest), title) == PlainKeys(PlainSubs(rest), title);
    } else {
      assert ([PlainSub(sub.title, lines)] + PlainSubs(rest))[1..] == PlainSubs(rest);
    }
  }

  lemma {:induction false} PlainKeysAre(subs: seq<Subsection>, title: string)
    ensures PlainKeys(PlainSubs(subs), title) == KeysUnder(subs, title)
    decreases |subs|
  {
    if subs != [] {
      PlainKeysAre(subs[1..], title);
      PlainKeysCons(subs[0], subs[1..], title);
      assert subs == [subs[0]] + subs[1..];
    }
  }

  /** The same heading and title, and the same items under every title. */
  ghost predicate SameContent(q: Section, r: Section) {
    && q.heading == r.heading && q.title == r.title
    && forall title :: KeysUnder(q.subsections, title) == KeysUnder(r.subsections, title)
  }

  ghost predicate Matching(output: seq<Section>, fixed: seq<Section>) {
    |output| == |fixed| && forall i :: 0 <= i < |fixed| ==> SameContent(output[i], fixed[i])
  }

  /** The output text has the sections of the fixed document. */
  lemma {:induction false} OutputMatches(content: string, promotable: set<nat>, history: set<Key>, rank: Rank)
    ensures Matching(ParsedText(FixedText(content, promotable, history, rank)).sections,
                     Fixed(ParsedText(content).sections, promotable, history, rank))
  {
    var fixed := Fixed(ParsedText(content).sections, promotable, history, rank);
    var output := ParsedText(FixedText(content, promotable, history, rank)).sections;
    FixedTextParses(content, promotable, history, rank);
    ParsedTextFine(content);
    FixedFine(ParsedText(content).sections, promotable, history, rank);
    ParsedTextFine(FixedText(content, promotable, history, rank));
    SamePlainContent(output, fixed);
  }

  lemma {:induction false} SamePlainContent(a: seq<Section>, b: seq<Section>)
    requires PlainSections(a) == PlainSections(b) && FineSections(a) && FineSections(b)
    ensures Matching(a, b)
  {
    PlainLength(a);
    PlainLength(b);
    forall i | 0 <= i < |b| ensures SameContent(a[i], b[i]) {
      PlainSectionAt(a, i);
      PlainSectionAt(b, i);
      SamePlainSection(a[i], b[i]);
    }
  }

  lemma {:induction false} SamePlainSection(q: Section, r: Section)
    requires PlainSectionOf(q) == PlainSectionOf(r) && FineSection(q) && FineSection(r)
    ensures SameContent(q, r)
  {
    forall title ensures KeysUnder(q.subsections, title) == KeysUnder(r.subsections, title) {
      PlainKeysAre(q.subsections, title);
      PlainKeysAre(r.subsections, title);
    }
  }

  ghost predicate HasUnder(sections: seq<Section>, title: string, key: Key) {
    exists q :: q in sections && q.title == UNRELEASED && key in KeysUnder(q.subsections, title)
  }

  ghost predicate HasRest(sections: seq<Section>, s: Section, choice: Choice) {
    exists q :: q in sections && KeepsRest(q, s, choice)
  }

  lemma {:induction false} MatchingHas(output: seq<Section>, fixed: seq<Section>, title: string, key: Key)
    requires Matching(output, fixed) && HasUnder(fixed, title, key)
    ensures HasUnder(output, title, key)
  {
    var j: nat :| j < |fixed| && fixed[j].title == UNRELEASED && key in KeysUnder(fixed[j].subsections, title);
    assert SameContent(output[j], fixed[j]);
  }

  lemma {:induction false} MatchingRest(output: seq<Section>, fixed: seq<Section>, s: Section, choice: Choice)
    requires Matching(output, fixed) && HasRest(fixed, s, choice)
    ensures HasRest(output, s, choice)
  {
    var j: nat :| j < |fixed| && KeepsRest(fixed[j], s, choice);
    assert SameContent(output[j], fixed[j]);
    assert KeepsRest(output[j], s, choice);
  }

  lemma {:induction false} MatchingSomewhere(output: seq<Section>, fixed: seq<Section>, key: Key)
    requires Matching(output, fixed) && Somewhere(fixed, key)
    ensures Somewhere(output, key)
  {
    var r, title :| r in fixed && key in KeysUnder(r.subsections, title);
    var j: nat :| j < |fixed| && fixed[j] == r;
    assert SameContent(output[j], fixed[j]) && key in KeysUnder(output[j].subsections, title);
  }

  /** From text to text, a promotable item of a released section arrives in an Unreleased section, under its old title. */
  lemma {:induction false} PromotedTextArrives(content: string, promotable: set<nat>, history: set<Key>, rank: Rank, i: nat, title: string, key: Key)
    requires AllStart(ParsedText(content).sections) && i < |ParsedText(content).sections|
    requires ParsedText(content).sections[i].title != UNRELEASED
    requires (title, key) in ChosenFrom(ParsedText(content).sections[i].subsections, StartsIn(promotable))
    ensures HasUnder(ParsedText(FixedText(content, promotable, history, rank)).sections, title, key)
  {
    var sections := ParsedText(content).sections;
    PromotedArrives(sections, promotable, history, rank, i, title, key);
    OutputMatches(content, promotable, history, rank);
    MatchingHas(ParsedText(FixedText(content, promotable, history, rank)).sections, Fixed(sections, promotable, history, rank), title, key);
  }

  /** From text to text, a released section keeps exactly its other items, with their text and in their order. */
  lemma {:induction false} ReleasedTextKeepsRest(content: string, promotable: set<nat>, history: set<Key>, rank: Rank, i: nat)
    requires AllStart(ParsedText(content).sections) && i < |ParsedText(content).sections|
    requires ParsedText(content).sections[i].title != UNRELEASED
    ensures HasRest(ParsedText(FixedText(content, promotable, history, rank)).sections, ParsedText(content).sections[i], StartsIn(promotable))
  {
    var sections := ParsedText(content).sections;
    ReleasedKeepsRest(sections, promotable, history, rank, i);
    OutputMatches(content, promotable, history, rank);
    MatchingRest(ParsedText(FixedText(content, promotable, history, rank)).sections, Fixed(sections, promotable, history, rank),
      sections[i], StartsIn(promotable));
  }

  /** Every item of the input text is an item of the output text, when no history is given. */
  lemma {:induction false} NoItemTextLost(content: string, promotable: set<nat>, rank: Rank, key: Key)
    requires AllStart(ParsedText(content).sections) && Somewhere(ParsedText(content).sections, key)
    ensures Somewhere(ParsedText(FixedText(content, promotable, {}, rank)).sections, key)
  {
    var sections := ParsedText(content).sections;
    var s, title :| s in sections && key in KeysUnder(s.subsections, title);
    var i: nat :| i < |sections| && sections[i] == s;
    NothingLost(sections, promotable, rank, i, title, key);
    OutputMatches(content, promotable, {}, rank);
    MatchingSomewhere(ParsedText(FixedText(content, promotable, {}, rank)).sections, Fixed(sections, promotable, {}, rank), key);
  }
}
