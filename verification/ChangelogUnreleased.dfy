/** The Unreleased section of a fixed changelog: what it keeps, what has left it, what it gained, and from which lines. */
module ChangelogUnreleased {
  import opened Collections
  import opened ChangelogDocument
  import opened ChangelogItems
  import opened ChangelogCut
  import opened ChangelogPromotion
  import opened ChangelogFix
  import opened ChangelogGains
  import opened ChangelogPlaces

  // ----- what has been released -----

  /** Some released section has this item. */
  ghost predicate IsReleased(sections: seq<Section>, key: Key) {
    exists i: nat, title :: i < |sections| && sections[i].title != UNRELEASED && key in KeysUnder(sections[i].subsections, title)
  }

  lemma {:induction false} UnderIsAll(subs: seq<Subsection>, title: string, key: Key)
    requires key in KeysUnder(subs, title)
    ensures key in AllKeys(subs)
    decreases |subs|
  {
    if key !in OwnKeys(subs[0], title) {
      UnderIsAll(subs[1..], title, key);
    }
  }

  lemma {:induction false} AllAreReleased(sections: seq<Section>, i: nat, title: string, key: Key)
    requires i < |sections| && sections[i].title != UNRELEASED && key in KeysUnder(sections[i].subsections, title)
    ensures key in ReleasedKeys(sections)
    decreases |sections|
  {
    if i == 0 {
      UnderIsAll(sections[0].subsections, title, key);
    } else {
      AllAreReleased(sections[1..], i - 1, title, key);
    }
  }

  lemma {:induction false} ReleasedKeysAre(sections: seq<Section>, key: Key)
    ensures key in ReleasedKeys(sections) <==> IsReleased(sections, key)
  {
    if key in ReleasedKeys(sections) {
      var i, title := InReleasedKeys(sections, key);
    }
    if IsReleased(sections, key) {
      var i: nat, title :| i < |sections| && sections[i].title != UNRELEASED && key in KeysUnder(sections[i].subsections, title);
      AllAreReleased(sections, i, title, key);
    }
  }

  /** The items that are not gone, in order. */
  function Remaining(keys: seq<Key>, gone: set<Key>): seq<Key> {
    if keys == [] then [] else (if keys[0] in gone then [] else [keys[0]]) + Remaining(keys[1..], gone)
  }

  lemma {:induction false} RemainingConcat(a: seq<Key>, b: seq<Key>, gone: set<Key>)
    ensures Remaining(a + b, gone) == Remaining(a, gone) + Remaining(b, gone)
  {
    var all := a + b;
    if a == [] {
      assert all == b;
    } else {
      var rest := a[1..];
      RemainingConcat(rest, b, gone);
      assert all[0] == a[0] && all[1..] == rest + b;
      var own := if a[0] in gone then [] else [a[0]];
      calc {
        Remaining(all, gone);
        own + Remaining(rest + b, gone);
        own + (Remaining(rest, gone) + Remaining(b, gone));
        { Assoc(own, Remaining(rest, gone), Remaining(b, gone)); }
        (own + Remaining(rest, gone)) + Remaining(b, gone);
        Remaining(a, gone) + Remaining(b, gone);
      }
    }
  }

  lemma {:induction false} OthersRemain(items: seq<Item>, gone: set<Key>)
    ensures KeysOf(Others(items, IsOneOf(gone))) == Remaining(KeysOf(items), gone)
  {
    if items != [] {
      var first, rest := items[0], items[1..];
      OthersRemain(rest, gone);
      KeysOfCons(first, rest);
      assert items == [first] + rest && ([first.lines] + KeysOf(rest))[1..] == KeysOf(rest);
      if first.lines in gone {
        assert Others(items, IsOneOf(gone)) == Others(rest, IsOneOf(gone));
      } else {
        KeysOfCons(first, Others(rest, IsOneOf(gone)));
      }
    }
  }

  lemma {:induction false} LeftRemain(subs: seq<Subsection>, title: string, gone: set<Key>)
    ensures KeysLeft(subs, title, IsOneOf(gone)) == Remaining(KeysUnder(subs, title), gone)
    decreases |subs|
  {
    if subs != [] {
      var first, rest := subs[0], subs[1..];
      LeftRemain(rest, title, gone);
      ItemsKeys(first.lines);
      OthersRemain(Items(first.lines), gone);
      RemainingConcat(OwnKeys(first, title), KeysUnder(rest, title), gone);
    }
  }

  // ----- what was promoted -----

  lemma {:induction false} PromotedFrom(sections: seq<Section>, choice: Choice, x: (string, Key)) returns (i: nat)
    requires x in Promoted(sections, choice)
    ensures i < |sections| && sections[i].title != UNRELEASED && x in ChosenFrom(sections[i].subsections, choice)
    decreases |sections|
  {
    var own := if sections[0].title == UNRELEASED then [] else ChosenFrom(sections[0].subsections, choice);
    assert Promoted(sections, choice) == own + Promoted(sections[1..], choice);
    if x in own {
      i := 0;
    } else {
      i := PromotedFrom(sections[1..], choice, x);
      i := i + 1;
    }
  }

  /** The item begins at a line that is to be promoted, in a subsection of this title. */
  ghost predicate BeginsAtOne(subs: seq<Subsection>, lines: set<nat>, title: string, key: Key) {
    exists j: nat, n :: j < |subs| && n in lines && subs[j].title == title && ItemAt(subs[j].lines, n, key)
  }

  ghost predicate HasText(items: seq<Item>, key: Key) {
    exists m :: 0 <= m < |items| && items[m].lines == key
  }

  lemma {:induction false} HasTextCons(first: Item, rest: seq<Item>, key: Key)
    ensures HasText([first] + rest, key) <==> first.lines == key || HasText(rest, key)
  {
    var all := [first] + rest;
    assert all[0] == first && forall m :: 0 <= m < |rest| ==> all[m + 1] == rest[m];
    assert forall m :: 0 < m < |all| ==> all[m] == rest[m - 1];
  }

  lemma {:induction false} HasItemCons(first: Item, rest: seq<Item>, n: nat, key: Key)
    ensures HasItem([first] + rest, n, key) <==> (first.startLine == n && first.lines == key) || HasItem(rest, n, key)
  {
    var all := [first] + rest;
    assert all[0] == first && forall m :: 0 <= m < |rest| ==> all[m + 1] == rest[m];
    assert forall m :: 0 < m < |all| ==> all[m] == rest[m - 1];
  }

  ghost predicate HasItemAtOne(items: seq<Item>, lines: set<nat>, key: Key) {
    exists n :: n in lines && HasItem(items, n, key)
  }

  lemma {:induction false} ChosenBegin(items: seq<Item>, lines: set<nat>, key: Key)
    ensures HasText(Chosen(items, StartsIn(lines)), key) <==> HasItemAtOne(items, lines, key)
  {
    if items != [] {
      var first, rest := items[0], items[1..];
      var later := Chosen(rest, StartsIn(lines));
      ChosenBegin(rest, lines, key);
      HasTextCons(first, later, key);
      forall n ensures HasItem(items, n, key) <==> (first.startLine == n && first.lines == key) || HasItem(rest, n, key) {
        HasItemCons(first, rest, n, key);
        assert items == [first] + rest;
      }
      assert Chosen(items, StartsIn(lines)) == if first.startLine in lines then [first] + later else later;
    }
  }

  lemma {:induction false} ChosenByLine(subs: seq<Subsection>, lines: set<nat>, title: string, key: Key)
    ensures (title, key) in ChosenFrom(subs, StartsIn(lines)) <==> BeginsAtOne(subs, lines, title, key)
    decreases |subs|
  {
    if subs != [] {
      var first, rest := subs[0], subs[1..];
      var chosen := Chosen(Items(first.lines), StartsIn(lines));
      ChosenByLine(rest, lines, title, key);
      ChosenBegin(Items(first.lines), lines, key);
      forall n ensures ItemAt(first.lines, n, key) <==> HasItem(Items(first.lines), n, key) {
        ItemsBegin(first.lines, n, key);
      }
      TitledHas(first.title, chosen, title, key);
      BeginsCons(first, rest, lines, title, key);
      assert subs == [first] + rest;
    }
  }

  lemma {:induction false} TitledHas(own: string, chosen: seq<Item>, title: string, key: Key)
    ensures (title, key) in Titled(own, chosen) <==> own == title && HasText(chosen, key)
  {
    var all := Titled(own, chosen);
    if HasText(chosen, key) {
      var m :| 0 <= m < |chosen| && chosen[m].lines == key;
      assert all[m] == (own, key);
    }
  }

  lemma {:induction false} BeginsCons(first: Subsection, rest: seq<Subsection>, lines: set<nat>, title: string, key: Key)
    ensures BeginsAtOne([first] + rest, lines, title, key)
      <==> (first.title == title && exists n :: n in lines && ItemAt(first.lines, n, key)) || BeginsAtOne(rest, lines, title, key)
  {
    var all := [first] + rest;
    assert all[0] == first && forall j :: 0 <= j < |rest| ==> all[j + 1] == rest[j];
    if j: nat, n :| j < |rest| && n in lines && rest[j].title == title && ItemAt(rest[j].lines, n, key) {
      assert all[j + 1] == rest[j];
    }
    if j: nat, n :| j < |all| && n in lines && all[j].title == title && ItemAt(all[j].lines, n, key) {
      assert j > 0 ==> all[j] == rest[j - 1];
    }
  }

  /** What is promoted are the items of released sections that begin at a line to be promoted. */
  lemma {:induction false} PromotedByLine(sections: seq<Section>, lines: set<nat>, title: string, key: Key)
    ensures (title, key) in Promoted(sections, StartsIn(lines))
      <==> exists i: nat :: i < |sections| && sections[i].title != UNRELEASED && BeginsAtOne(sections[i].subsections, lines, title, key)
  {
    if (title, key) in Promoted(sections, StartsIn(lines)) {
      var i := PromotedFrom(sections, StartsIn(lines), (title, key));
      ChosenByLine(sections[i].subsections, lines, title, key);
    }
    if i: nat :| i < |sections| && sections[i].title != UNRELEASED && BeginsAtOne(sections[i].subsections, lines, title, key) {
      ChosenByLine(sections[i].subsections, lines, title, key);
      PromotedHas(sections, StartsIn(lines), i, (title, key));
    }
  }

  // ----- the first section of the result -----

  lemma {:induction false} FirstOfKind(sections: seq<Section>)
    requires FirstUnreleased(sections) < |sections|
    ensures OfKind(sections, true) != [] && OfKind(sections, true)[0] == sections[FirstUnreleased(sections)]
    decreases |sections|
  {
    if sections[0].title != UNRELEASED {
      FirstOfKind(sections[1..]);
    }
  }

  lemma {:induction false} SortedFirst(sections: seq<Section>, rank: Rank, u: nat)
    requires u < |sections| && sections[u].title == UNRELEASED && forall i :: 0 <= i < u ==> sections[i].title != UNRELEASED
    ensures Sorted(sections, rank) != [] && Sorted(sections, rank)[0] == sections[u]
  {
    assert FirstUnreleased(sections) == u;
    FirstOfKind(sections);
  }

  /** The Unreleased section that receives the promoted items is the first of the result. */
  lemma {:induction false} ReceiverIsFirst(sections: seq<Section>, choice: Choice, rank: Rank)
    requires Promoted(sections, choice) != [] || FirstUnreleased(sections) < |sections|
    ensures var p := Promote(sections, choice);
      && Receiver(sections) < |p| && Sorted(Normalized(p), rank) != []
      && Sorted(Normalized(p), rank)[0] == NormalSection(p[Receiver(sections)])
      && p[Receiver(sections)].title == UNRELEASED
      && p[Receiver(sections)].subsections == AddAll(OwnSubs(sections), Promoted(sections, choice))
  {
    ReceiverAt(sections, choice);
    NoneBeforeReceiver(sections, choice);
    FirstIsNormal(Promote(sections, choice), Receiver(sections), rank);
  }

  lemma {:induction false} NoneBeforeReceiver(sections: seq<Section>, choice: Choice)
    requires Receiver(sections) < |Promote(sections, choice)|
    ensures forall i :: 0 <= i < Receiver(sections) ==> Promote(sections, choice)[i].title != UNRELEASED
  {
    forall i | 0 <= i < Receiver(sections) ensures Promote(sections, choice)[i].title != UNRELEASED {
      PromoteAt(sections, choice, i);
    }
  }

  lemma {:induction false} FirstIsNormal(p: seq<Section>, u: nat, rank: Rank)
    requires u < |p| && p[u].title == UNRELEASED && forall i :: 0 <= i < u ==> p[i].title != UNRELEASED
    ensures Sorted(Normalized(p), rank) != [] && Sorted(Normalized(p), rank)[0] == NormalSection(p[u])
  {
    NormalizedAt(p, u);
    forall i | 0 <= i < u ensures Normalized(p)[i].title != UNRELEASED {
      NormalizedAt(p, i);
    }
    SortedFirst(Normalized(p), rank, u);
  }

  /** First the items it had that are not gone, then those promoted under the title that it does not have, each once. */
  ghost predicate KeepsAndGains(after: seq<Key>, own: seq<Subsection>, gone: set<Key>, title: string, added: seq<(string, Key)>) {
    after == Remaining(KeysUnder(own, title), gone) + Gains(TitleKeys(added, title), LastKeys(own, title) - gone)
  }

  /**
   * The first section of the result is Unreleased. Under every title it has the items it had, in order, without those
   * that are released or in the history, and then, in order, those promoted under the title that it does not have yet.
   */
  lemma {:induction false} UnreleasedGets(sections: seq<Section>, promotable: set<nat>, history: set<Key>, rank: Rank, gone: set<Key>, title: string)
    requires AllStart(sections) && (Promoted(sections, StartsIn(promotable)) != [] || FirstUnreleased(sections) < |sections|)
    requires forall key :: key in gone <==> IsReleased(sections, key) || key in history
    ensures var fixed := Fixed(sections, promotable, history, rank);
      fixed != [] && fixed[0].title == UNRELEASED
      && KeepsAndGains(KeysUnder(fixed[0].subsections, title), OwnSubs(sections), gone, title, Promoted(sections, StartsIn(promotable)))
  {
    var choice, dropped := StartsIn(promotable), DropDuplicates(sections, history);
    DroppedSame(sections, history, choice);
    DroppedStart(sections, history);
    ReceiverIsFirst(dropped, choice, rank);
    OwnAfterDrop(sections, history, gone, title);
    LastAfterDrop(sections, history, gone, title);
    PromotedAreKeys(dropped, choice);
    OwnStart(dropped);
    AddAllStarts(OwnSubs(dropped), Promoted(dropped, choice));
    NormalSectionKeys(Promote(dropped, choice)[Receiver(dropped)], title);
    AddAllGains(OwnSubs(dropped), Promoted(dropped, choice), title);
  }

  lemma {:induction false} CutLast(subs: seq<Subsection>, choice: Choice, title: string)
    ensures |CutSubs(subs, choice)| == |subs| && LastWith(CutSubs(subs, choice), title) == LastWith(subs, title)
  {
    if subs != [] {
      CutSubsAt(subs, choice, 0);
    }
    var cut, j := CutSubs(subs, choice), LastWith(subs, title);
    forall i | 0 <= i < |subs| ensures cut[i].title == subs[i].title {
      CutSubsAt(subs, choice, i);
    }
    if j < |subs| {
      SameLast(cut, title, j);
    }
  }

  lemma {:induction false} LastAfterDrop(sections: seq<Section>, history: set<Key>, gone: set<Key>, title: string)
    requires forall key :: key in gone <==> IsReleased(sections, key) || key in history
    ensures LastKeys(OwnSubs(DropDuplicates(sections, history)), title) == LastKeys(OwnSubs(sections), title) - gone
  {
    var u := FirstUnreleased(sections);
    DroppedSame(sections, history, IsOneOf(gone));
    forall key ensures key in ReleasedKeys(sections) + history <==> key in gone {
      ReleasedKeysAre(sections, key);
    }
    assert ReleasedKeys(sections) + history == gone;
    if u < |sections| {
      LastOfCut(sections[u].subsections, gone, title);
    }
  }

  lemma {:induction false} LastOfCut(subs: seq<Subsection>, gone: set<Key>, title: string)
    ensures LastKeys(CutSubs(subs, IsOneOf(gone)), title) == LastKeys(subs, title) - gone
  {
    CutLast(subs, IsOneOf(gone), title);
    var j := LastWith(subs, title);
    if j < |subs| {
      CutSubsAt(subs, IsOneOf(gone), j);
      var lines := subs[j].lines;
      ItemsKeys(lines);
      ItemsKeys(Cut(lines, IsOneOf(gone)));
      CutItems(lines, IsOneOf(gone));
      OthersRemain(Items(lines), gone);
      forall key ensures key in Remaining(Keys(Texts(lines)), gone) <==> key in Keys(Texts(lines)) && key !in gone {
        RemainingHas(Keys(Texts(lines)), gone, key);
      }
    }
  }

  lemma {:induction false} RemainingHas(keys: seq<Key>, gone: set<Key>, key: Key)
    ensures key in Remaining(keys, gone) <==> key in keys && key !in gone
  {
    if keys != [] {
      RemainingHas(keys[1..], gone, key);
    }
  }

  /** So an item is there afterwards exactly when it was there and is not gone, or was promoted there. */
  lemma {:induction false} ThereAfterwards(after: seq<Key>, own: seq<Subsection>, gone: set<Key>, title: string, added: seq<(string, Key)>, key: Key)
    requires KeepsAndGains(after, own, gone, title, added)
    ensures key in after <==> (key in KeysUnder(own, title) && key !in gone) || (title, key) in added
  {
    RemainingHas(KeysUnder(own, title), gone, key);
    GainsAreNew(TitleKeys(added, title), LastKeys(own, title) - gone);
    TitleKeysAre(added, title, key);
    if key in LastKeys(own, title) {
      LastAreUnder(own, title, key);
    }
  }

  lemma {:induction false} OwnAfterDrop(sections: seq<Section>, history: set<Key>, gone: set<Key>, title: string)
    requires forall key :: key in gone <==> IsReleased(sections, key) || key in history
    ensures KeysUnder(OwnSubs(DropDuplicates(sections, history)), title) == Remaining(KeysUnder(OwnSubs(sections), title), gone)
  {
    var u := FirstUnreleased(sections);
    DroppedSame(sections, history, IsOneOf(gone));
    forall key ensures key in ReleasedKeys(sections) + history <==> key in gone {
      ReleasedKeysAre(sections, key);
    }
    assert ReleasedKeys(sections) + history == gone;
    if u < |sections| {
      CutSubsKeys(sections[u].subsections, title, IsOneOf(gone));
      LeftRemain(sections[u].subsections, title, gone);
    }
  }
}
