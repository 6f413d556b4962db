/** The fixer on the releases of a document: what is dropped, promoted, normalized and sorted, and that nothing gets lost. */
module ChangelogFix {
  import opened ChangelogDocument
  import opened ChangelogItems
  import opened ChangelogCut
  import opened ChangelogPromotion
  import opened StableSort

  // ----- the steps -----

  /** The first section titled Unreleased. */
  function FirstUnreleased(sections: seq<Section>): (u: nat)
    ensures u <= |sections| && (u < |sections| ==> sections[u].title == UNRELEASED)
    ensures forall i :: 0 <= i < u ==> sections[i].title != UNRELEASED
  {
    if sections == [] || sections[0].title == UNRELEASED then 0 else 1 + FirstUnreleased(sections[1..])
  }

  function CutSection(s: Section, choice: Choice): Section {
    s.(subsections := CutSubs(s.subsections, choice))
  }

  /** Every released section without its chosen items. */
  function CutReleased(sections: seq<Section>, choice: Choice): seq<Section> {
    if sections == [] then []
    else [if sections[0].title == UNRELEASED then sections[0] else CutSection(sections[0], choice)] + CutReleased(sections[1..], choice)
  }

  /** The chosen items of the released sections, with their titles, in order. */
  function Promoted(sections: seq<Section>, choice: Choice): seq<(string, Key)> {
    if sections == [] then []
    else (if sections[0].title == UNRELEASED then [] else ChosenFrom(sections[0].subsections, choice)) + Promoted(sections[1..], choice)
  }

  const NEW_UNRELEASED := Section("## [Unreleased]", UNRELEASED, [], [])

  /** Adds items to the first Unreleased section, which is created in front when there is none. */
  function WithAdded(sections: seq<Section>, added: seq<(string, Key)>): seq<Section> {
    var u := FirstUnreleased(sections);
    if added == [] then sections
    else if u < |sections| then sections[u := sections[u].(subsections := AddAll(sections[u].subsections, added))]
    else [NEW_UNRELEASED.(subsections := AddAll([], added))] + sections
  }

  function Promote(sections: seq<Section>, choice: Choice): seq<Section> {
    WithAdded(CutReleased(sections, choice), Promoted(sections, choice))
  }

  function AllKeys(subs: seq<Subsection>): set<Key> {
    if subs == [] then {} else (set k | k in Keys(Texts(subs[0].lines))) + AllKeys(subs[1..])
  }

  function ReleasedKeys(sections: seq<Section>): set<Key> {
    if sections == [] then {}
    else (if sections[0].title == UNRELEASED then {} else AllKeys(sections[0].subsections)) + ReleasedKeys(sections[1..])
  }

  function IsOneOf(keys: set<Key>): Choice {
    (item: Item) => item.lines in keys
  }

  /** The first Unreleased section without the items that are released already, here or in the history. */
  function DropDuplicates(sections: seq<Section>, history: set<Key>): seq<Section> {
    var u := FirstUnreleased(sections);
    if u == |sections| then sections
    else sections[u := CutSection(sections[u], IsOneOf(ReleasedKeys(sections) + history))]
  }

  function Normalized(sections: seq<Section>): seq<Section> {
    if sections == [] then [] else [NormalSection(sections[0])] + Normalized(sections[1..])
  }

  function OfKind(sections: seq<Section>, unreleased: bool): seq<Section> {
    if sections == [] then []
    else (if (sections[0].title == UNRELEASED) == unreleased then [sections[0]] else []) + OfKind(sections[1..], unreleased)
  }

  // How recent a release is, by its title.
  type Rank = string -> int

  function ByTitle(rank: Rank): Section -> int {
    (s: Section) => rank(s.title)
  }

  function Sorted(sections: seq<Section>, rank: Rank): seq<Section> {
    OfKind(sections, true) + SortDesc(OfKind(sections, false), ByTitle(rank))
  }

  function StartsIn(lines: set<nat>): Choice {
    (item: Item) => item.startLine in lines
  }

  /** `fixChangelogContent` between parsing and rendering. */
  function Fixed(sections: seq<Section>, promotable: set<nat>, history: set<Key>, rank: Rank): seq<Section> {
    Sorted(Normalized(Promote(DropDuplicates(sections, history), StartsIn(promotable))), rank)
  }

  // ----- where things are -----

  lemma {:induction false} CutReleasedAt(sections: seq<Section>, choice: Choice, i: nat)
    requires i < |sections|
    ensures |CutReleased(sections, choice)| == |sections|
    ensures CutReleased(sections, choice)[i] == if sections[i].title == UNRELEASED then sections[i] else CutSection(sections[i], choice)
    decreases |sections|
  {
    if |sections| > 1 {
      CutReleasedAt(sections[1..], choice, if i == 0 then 0 else i - 1);
    }
  }

  lemma {:induction false} SameFirstUnreleased(a: seq<Section>, b: seq<Section>)
    requires |a| == |b| && forall i :: 0 <= i < |a| ==> a[i].title == b[i].title
    ensures FirstUnreleased(a) == FirstUnreleased(b)
    decreases |a|
  {
    if a != [] {
      SameFirstUnreleased(a[1..], b[1..]);
    }
  }

  lemma {:induction false} CutReleasedFirst(sections: seq<Section>, choice: Choice)
    ensures |CutReleased(sections, choice)| == |sections|
    ensures FirstUnreleased(CutReleased(sections, choice)) == FirstUnreleased(sections)
  {
    var cut := CutReleased(sections, choice);
    if sections == [] {
    } else {
      CutReleasedAt(sections, choice, 0);
      forall i | 0 <= i < |sections| ensures cut[i].title == sections[i].title {
        CutReleasedAt(sections, choice, i);
      }
      SameFirstUnreleased(cut, sections);
    }
  }

  /** How far the sections move when an Unreleased section is created. */
  function Shift(sections: seq<Section>, choice: Choice): nat {
    if Promoted(sections, choice) != [] && FirstUnreleased(sections) == |sections| then 1 else 0
  }

  /** Section `i`, except the one that receives the promoted items, is only cut. */
  lemma {:induction false} PromoteAt(sections: seq<Section>, choice: Choice, i: nat)
    requires i < |sections| && (sections[i].title == UNRELEASED ==> i != FirstUnreleased(sections))
    ensures i + Shift(sections, choice) < |Promote(sections, choice)|
    ensures Promote(sections, choice)[i + Shift(sections, choice)]
      == if sections[i].title == UNRELEASED then sections[i] else CutSection(sections[i], choice)
  {
    CutReleasedFirst(sections, choice);
    CutReleasedAt(sections, choice, i);
    WithAddedAt(CutReleased(sections, choice), Promoted(sections, choice), i);
  }

  lemma {:induction false} WithAddedAt(sections: seq<Section>, added: seq<(string, Key)>, i: nat)
    requires i < |sections| && i != FirstUnreleased(sections)
    ensures var k := if added != [] && FirstUnreleased(sections) == |sections| then i + 1 else i;
      k < |WithAdded(sections, added)| && WithAdded(sections, added)[k] == sections[i]
  {
  }

  /** What the receiving section holds before. */
  function OwnSubs(sections: seq<Section>): seq<Subsection> {
    var u := FirstUnreleased(sections);
    if u < |sections| then sections[u].subsections else []
  }

  function Receiver(sections: seq<Section>): nat {
    var u := FirstUnreleased(sections);
    if u < |sections| then u else 0
  }

  /** The section that receives the promoted items. */
  lemma {:induction false} ReceiverAt(sections: seq<Section>, choice: Choice)
    requires Promoted(sections, choice) != [] || FirstUnreleased(sections) < |sections|
    ensures Receiver(sections) < |Promote(sections, choice)|
    ensures Promote(sections, choice)[Receiver(sections)].title == UNRELEASED
    ensures Promote(sections, choice)[Receiver(sections)].subsections == AddAll(OwnSubs(sections), Promoted(sections, choice))
  {
    CutReleasedFirst(sections, choice);
    var u := FirstUnreleased(sections);
    if u < |sections| {
      CutReleasedAt(sections, choice, u);
    }
  }

  lemma {:induction false} PromotedHas(sections: seq<Section>, choice: Choice, i: nat, x: (string, Key))
    requires i < |sections| && sections[i].title != UNRELEASED && x in ChosenFrom(sections[i].subsections, choice)
    ensures x in Promoted(sections, choice)
    decreases |sections|
  {
    if i > 0 {
      PromotedHas(sections[1..], choice, i - 1, x);
    }
  }

  lemma {:induction false} PromotedAreKeys(sections: seq<Section>, choice: Choice)
    ensures AreKeys(Promoted(sections, choice))
    decreases |sections|
  {
    if sections != [] {
      PromotedAreKeys(sections[1..], choice);
      ChosenAreKeys(sections[0].subsections, choice);
    }
  }

  // ----- dropping duplicates leaves the released sections alone -----

  lemma {:induction false} OnlyUnreleasedChanged(a: seq<Section>, b: seq<Section>, choice: Choice)
    requires |a| == |b| && forall i :: 0 <= i < |a| ==> a[i] == b[i] || (a[i].title == UNRELEASED == b[i].title)
    ensures Promoted(a, choice) == Promoted(b, choice)
    ensures FirstUnreleased(a) == FirstUnreleased(b)
    decreases |a|
  {
    if a != [] {
      OnlyUnreleasedChanged(a[1..], b[1..], choice);
    }
  }

  lemma {:induction false} DroppedSame(sections: seq<Section>, history: set<Key>, choice: Choice)
    ensures var d := DropDuplicates(sections, history);
      && |d| == |sections| && Promoted(d, choice) == Promoted(sections, choice) && FirstUnreleased(d) == FirstUnreleased(sections)
      && forall i :: 0 <= i < |sections| && i != FirstUnreleased(sections) ==> d[i] == sections[i]
  {
    OnlyUnreleasedChanged(DropDuplicates(sections, history), sections, choice);
  }

  lemma {:induction false} InAllKeys(subs: seq<Subsection>, key: Key)
    requires key in AllKeys(subs)
    ensures exists title :: key in KeysUnder(subs, title)
    decreases |subs|
  {
    if key in Keys(Texts(subs[0].lines)) {
      assert key in KeysUnder(subs, subs[0].title);
    } else {
      InAllKeys(subs[1..], key);
      var title :| key in KeysUnder(subs[1..], title);
      assert key in KeysUnder(subs, title);
    }
  }

  /** A released key is an item of some released section. */
  lemma {:induction false} InReleasedKeys(sections: seq<Section>, key: Key) returns (i: nat, title: string)
    requires key in ReleasedKeys(sections)
    ensures i < |sections| && sections[i].title != UNRELEASED && key in KeysUnder(sections[i].subsections, title)
    decreases |sections|
  {
    if sections[0].title != UNRELEASED && key in AllKeys(sections[0].subsections) {
      InAllKeys(sections[0].subsections, key);
      i := 0;
      title :| key in KeysUnder(sections[0].subsections, title);
    } else {
      i, title := InReleasedKeys(sections[1..], key);
      i := i + 1;
    }
  }

  // ----- normalizing and sorting -----

  predicate AllStart(sections: seq<Section>) {
    forall i :: 0 <= i < |sections| ==> AllStartWithItems(sections[i].subsections)
  }

  lemma {:induction false} NormalizedAt(sections: seq<Section>, i: nat)
    requires i < |sections|
    ensures |Normalized(sections)| == |sections| && Normalized(sections)[i] == NormalSection(sections[i])
    decreases |sections|
  {
    if |sections| > 1 {
      NormalizedAt(sections[1..], if i == 0 then 0 else i - 1);
    }
  }

  lemma {:induction false} OfKindCons(first: Section, rest: seq<Section>, unreleased: bool)
    ensures multiset(OfKind([first] + rest, unreleased))
      == multiset(OfKind(rest, unreleased)) + if (first.title == UNRELEASED) == unreleased then multiset{first} else multiset{}
  {
    assert ([first] + rest)[1..] == rest;
  }

  lemma {:induction false} KindElements(sections: seq<Section>)
    ensures multiset(OfKind(sections, true)) + multiset(OfKind(sections, false)) == multiset(sections)
    decreases |sections|
  {
    if sections != [] {
      KindElements(sections[1..]);
      OfKindCons(sections[0], sections[1..], true);
      OfKindCons(sections[0], sections[1..], false);
      assert sections == [sections[0]] + sections[1..];
    }
  }

  /** Sorting loses and repeats no section. */
  lemma {:induction false} SortedElements(sections: seq<Section>, rank: Rank)
    ensures multiset(Sorted(sections, rank)) == multiset(sections)
  {
    KindElements(sections);
    SortIsDescending(OfKind(sections, false), ByTitle(rank));
  }

  lemma {:induction false} SortedHas(sections: seq<Section>, rank: Rank, s: Section)
    requires s in sections
    ensures s in Sorted(sections, rank)
  {
    SortedElements(sections, rank);
    assert s in multiset(sections);
    assert s in multiset(Sorted(sections, rank));
  }

  /** Every section between promotion and sorting arrives in the result with its items in place. */
  lemma {:induction false} Arrives(sections: seq<Section>, rank: Rank, i: nat)
    requires i < |sections| && AllStartWithItems(sections[i].subsections)
    ensures Arrived(Sorted(Normalized(sections), rank), sections[i])
  {
    NormalizedAt(sections, i);
    var n := NormalSection(sections[i]);
    assert Normalized(sections)[i] in Normalized(sections);
    SortedHas(Normalized(sections), rank, n);
    forall title ensures KeysUnder(n.subsections, title) == KeysUnder(sections[i].subsections, title) {
      NormalSectionKeys(sections[i], title);
    }
    assert SameItems(n, sections[i]);
  }

  ghost predicate SameItems(a: Section, b: Section) {
    a.heading == b.heading && a.title == b.title && forall title :: KeysUnder(a.subsections, title) == KeysUnder(b.subsections, title)
  }

  ghost predicate Arrived(result: seq<Section>, s: Section) {
    exists r :: r in result && SameItems(r, s)
  }

  // ----- nothing gets lost -----

  lemma {:induction false} AllStartCut(sections: seq<Section>, i: nat, choice: Choice)
    requires AllStart(sections) && i < |sections|
    ensures AllStartWithItems(CutSection(sections[i], choice).subsections)
  {
    CutSubsStart(sections[i].subsections, choice);
  }

  lemma {:induction false} DroppedStart(sections: seq<Section>, history: set<Key>)
    requires AllStart(sections)
    ensures AllStart(DropDuplicates(sections, history))
  {
    var u := FirstUnreleased(sections);
    if u < |sections| {
      AllStartCut(sections, u, IsOneOf(ReleasedKeys(sections) + history));
    }
  }

  /** What a released section is left with, under every title. */
  ghost predicate KeepsRest(r: Section, s: Section, choice: Choice) {
    r.heading == s.heading && r.title == s.title
    && forall title :: KeysUnder(r.subsections, title) == KeysLeft(s.subsections, title, choice)
  }

  lemma {:induction false} CutArrives(p: seq<Section>, rank: Rank, k: nat, s: Section, choice: Choice)
    requires k < |p| && p[k] == CutSection(s, choice) && AllStartWithItems(p[k].subsections)
    ensures exists r :: r in Sorted(Normalized(p), rank) && KeepsRest(r, s, choice)
  {
    Arrives(p, rank, k);
    var r :| r in Sorted(Normalized(p), rank) && SameItems(r, p[k]);
    forall title ensures KeysUnder(r.subsections, title) == KeysLeft(s.subsections, title, choice) {
      CutSubsKeys(s.subsections, title, choice);
    }
    assert KeepsRest(r, s, choice);
  }

  /** A released section keeps its other items, with their text and in their order; the promotable ones have left it. */
  lemma {:induction false} ReleasedKeepsRest(sections: seq<Section>, promotable: set<nat>, history: set<Key>, rank: Rank, i: nat)
    requires AllStart(sections) && i < |sections| && sections[i].title != UNRELEASED
    ensures exists r :: r in Fixed(sections, promotable, history, rank) && KeepsRest(r, sections[i], StartsIn(promotable))
  {
    var choice := StartsIn(promotable);
    var dropped := DropDuplicates(sections, history);
    DroppedReleased(sections, history, i);
    PromoteAt(dropped, choice, i);
    AllStartCut(sections, i, choice);
    CutArrives(Promote(dropped, choice), rank, i + Shift(dropped, choice), sections[i], choice);
  }

  lemma {:induction false} DroppedReleased(sections: seq<Section>, history: set<Key>, i: nat)
    requires i < |sections| && sections[i].title != UNRELEASED
    ensures i < |DropDuplicates(sections, history)| && DropDuplicates(sections, history)[i] == sections[i]
  {
  }

  /** What the Unreleased section ends up with: its own remaining items first, then items promoted under the same title. */
  ghost predicate Received(r: Section, before: seq<Subsection>, added: seq<(string, Key)>) {
    && r.title == UNRELEASED
    && (forall title :: KeysUnder(before, title) <= KeysUnder(r.subsections, title))
    && (forall title, key :: key in KeysUnder(r.subsections, title)[|KeysUnder(before, title)|..] ==> (title, key) in added)
    && (forall x :: x in added ==> x.1 in KeysUnder(r.subsections, x.0))
  }

  ghost predicate SomeoneReceived(result: seq<Section>, before: seq<Subsection>, added: seq<(string, Key)>) {
    exists r :: r in result && Received(r, before, added)
  }

  lemma {:induction false} OwnStart(sections: seq<Section>)
    requires AllStart(sections)
    ensures AllStartWithItems(OwnSubs(sections))
  {
  }

  lemma {:induction false} ReceiverGets(sections: seq<Section>, choice: Choice, rank: Rank)
    requires AllStart(sections) && (Promoted(sections, choice) != [] || FirstUnreleased(sections) < |sections|)
    ensures SomeoneReceived(Sorted(Normalized(Promote(sections, choice)), rank), OwnSubs(sections), Promoted(sections, choice))
  {
    ReceiverAt(sections, choice);
    PromotedAreKeys(sections, choice);
    OwnStart(sections);
    ReceiverArrives(Promote(sections, choice), rank, Receiver(sections), OwnSubs(sections), Promoted(sections, choice));
  }

  lemma {:induction false} ReceiverArrives(p: seq<Section>, rank: Rank, i: nat, before: seq<Subsection>, added: seq<(string, Key)>)
    requires i < |p| && p[i].title == UNRELEASED && p[i].subsections == AddAll(before, added)
    requires AllStartWithItems(before) && AreKeys(added)
    ensures SomeoneReceived(Sorted(Normalized(p), rank), before, added)
  {
    AddAllStarts(before, added);
    Arrives(p, rank, i);
    var r :| r in Sorted(Normalized(p), rank) && SameItems(r, p[i]);
    ReceivedAll(r, before, added);
  }

  lemma {:induction false} ReceivedAll(r: Section, before: seq<Subsection>, added: seq<(string, Key)>)
    requires r.title == UNRELEASED && AreKeys(added)
    requires forall title :: KeysUnder(r.subsections, title) == KeysUnder(AddAll(before, added), title)
    ensures Received(r, before, added)
  {
    forall title
      ensures KeysUnder(before, title) <= KeysUnder(r.subsections, title)
      ensures forall key :: key in KeysUnder(r.subsections, title)[|KeysUnder(before, title)|..] ==> (title, key) in added
    {
      AddAllKeys(before, added, title);
    }
    forall x | x in added ensures x.1 in KeysUnder(r.subsections, x.0) {
      var i :| 0 <= i < |added| && added[i] == x;
      AddedAreThere(before, added, i);
    }
  }

  /** A promotable item of a released section sits in an Unreleased section afterwards, under its old title. */
  lemma {:induction false} PromotedArrives(sections: seq<Section>, promotable: set<nat>, history: set<Key>, rank: Rank, i: nat, title: string, key: Key)
    requires AllStart(sections) && i < |sections| && sections[i].title != UNRELEASED
    requires (title, key) in ChosenFrom(sections[i].subsections, StartsIn(promotable))
    ensures exists r :: r in Fixed(sections, promotable, history, rank) && r.title == UNRELEASED && key in KeysUnder(r.subsections, title)
  {
    var choice := StartsIn(promotable);
    var dropped := DropDuplicates(sections, history);
    DroppedSame(sections, history, choice);
    DroppedStart(sections, history);
    PromotedHas(sections, choice, i, (title, key));
    ReceiverGets(dropped, choice, rank);
    var r :| r in Sorted(Normalized(Promote(dropped, choice)), rank) && Received(r, OwnSubs(dropped), Promoted(dropped, choice));
    assert key in KeysUnder(r.subsections, title);
  }

  ghost predicate Somewhere(sections: seq<Section>, key: Key) {
    exists r, title :: r in sections && key in KeysUnder(r.subsections, title)
  }

  lemma {:induction false} ReleasedNotLost(sections: seq<Section>, promotable: set<nat>, history: set<Key>, rank: Rank, i: nat, title: string, key: Key)
    requires AllStart(sections) && i < |sections| && sections[i].title != UNRELEASED && key in KeysUnder(sections[i].subsections, title)
    ensures Somewhere(Fixed(sections, promotable, history, rank), key)
  {
    var choice := StartsIn(promotable);
    LeftOrChosen(sections[i].subsections, title, choice, key);
    if (title, key) in ChosenFrom(sections[i].subsections, choice) {
      PromotedArrives(sections, promotable, history, rank, i, title, key);
    } else {
      ReleasedKeepsRest(sections, promotable, history, rank, i);
      var r :| r in Fixed(sections, promotable, history, rank) && KeepsRest(r, sections[i], choice);
      assert key in KeysUnder(r.subsections, title);
    }
  }

  lemma {:induction false} ChosenAreOneOf(subs: seq<Subsection>, keys: set<Key>, x: (string, Key))
    requires x in ChosenFrom(subs, IsOneOf(keys))
    ensures x.1 in keys
    decreases |subs|
  {
    var choice := IsOneOf(keys);
    var chosen := Chosen(Items(subs[0].lines), choice);
    ChosenAreItems(Items(subs[0].lines), choice);
    if x !in Titled(subs[0].title, chosen) {
      ChosenAreOneOf(subs[1..], keys, x);
    }
  }

  lemma {:induction false} KeptArrives(p: seq<Section>, rank: Rank, k: nat, title: string, key: Key)
    requires k < |p| && AllStartWithItems(p[k].subsections) && key in KeysUnder(p[k].subsections, title)
    ensures Somewhere(Sorted(Normalized(p), rank), key)
  {
    Arrives(p, rank, k);
    var r :| r in Sorted(Normalized(p), rank) && SameItems(r, p[k]);
    assert key in KeysUnder(r.subsections, title);
  }

  /** Further Unreleased sections are left alone. */
  lemma {:induction false} OtherUnreleased(sections: seq<Section>, promotable: set<nat>, rank: Rank, i: nat, title: string, key: Key)
    requires AllStart(sections) && i < |sections| && sections[i].title == UNRELEASED && i != FirstUnreleased(sections)
    requires key in KeysUnder(sections[i].subsections, title)
    ensures Somewhere(Fixed(sections, promotable, {}, rank), key)
  {
    var choice, dropped := StartsIn(promotable), DropDuplicates(sections, {});
    DroppedSame(sections, {}, choice);
    PromoteAt(dropped, choice, i);
    KeptArrives(Promote(dropped, choice), rank, i + Shift(dropped, choice), title, key);
  }

  lemma {:induction false} UnreleasedKept(sections: seq<Section>, promotable: set<nat>, rank: Rank, title: string, key: Key)
    requires AllStart(sections) && FirstUnreleased(sections) < |sections|
    requires key in KeysLeft(sections[FirstUnreleased(sections)].subsections, title, IsOneOf(ReleasedKeys(sections) + {}))
    ensures Somewhere(Fixed(sections, promotable, {}, rank), key)
  {
    var choice, u, dropped := StartsIn(promotable), FirstUnreleased(sections), DropDuplicates(sections, {});
    DroppedSame(sections, {}, choice);
    DroppedStart(sections, {});
    CutSubsKeys(sections[u].subsections, title, IsOneOf(ReleasedKeys(sections) + {}));
    ReceiverGets(dropped, choice, rank);
    var r :| r in Sorted(Normalized(Promote(dropped, choice)), rank) && Received(r, OwnSubs(dropped), Promoted(dropped, choice));
    InPrefix(KeysUnder(dropped[u].subsections, title), KeysUnder(r.subsections, title), key);
  }

  /** An item of Unreleased is dropped only when a released section has it too. */
  lemma {:induction false} UnreleasedNotLost(sections: seq<Section>, promotable: set<nat>, rank: Rank, i: nat, title: string, key: Key)
    requires AllStart(sections) && i < |sections| && sections[i].title == UNRELEASED && key in KeysUnder(sections[i].subsections, title)
    ensures Somewhere(Fixed(sections, promotable, {}, rank), key)
  {
    var keys := ReleasedKeys(sections) + {};
    if i != FirstUnreleased(sections) {
      OtherUnreleased(sections, promotable, rank, i, title, key);
    } else {
      LeftOrChosen(sections[i].subsections, title, IsOneOf(keys), key);
      if key in KeysLeft(sections[i].subsections, title, IsOneOf(keys)) {
        UnreleasedKept(sections, promotable, rank, title, key);
      } else {
        ChosenAreOneOf(sections[i].subsections, keys, (title, key));
        var j, t := InReleasedKeys(sections, key);
        ReleasedNotLost(sections, promotable, {}, rank, j, t, key);
      }
    }
  }

  lemma {:induction false} InPrefix(a: seq<Key>, b: seq<Key>, key: Key)
    requires a <= b && key in a
    ensures key in b
  {
    var i :| 0 <= i < |a| && a[i] == key;
    assert b[i] == key;
  }

  /** Fixing loses no item text, as long as no history is given. */
  lemma {:induction false} NothingLost(sections: seq<Section>, promotable: set<nat>, rank: Rank, i: nat, title: string, key: Key)
    requires AllStart(sections) && i < |sections| && key in KeysUnder(sections[i].subsections, title)
    ensures Somewhere(Fixed(sections, promotable, {}, rank), key)
  {
    if sections[i].title == UNRELEASED {
      UnreleasedNotLost(sections, promotable, rank, i, title, key);
    } else {
      ReleasedNotLost(sections, promotable, {}, rank, i, title, key);
    }
  }
}
