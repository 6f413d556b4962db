/** In which order the sections of a fixed changelog stand. */
module ChangelogOrder {
  import opened ChangelogDocument
  import opened ChangelogItems
  import opened ChangelogCut
  import opened ChangelogPromotion
  import opened ChangelogFix
  import opened StableSort

  // A section by its heading and title.
  type Entry = (string, string)

  function Outline(sections: seq<Section>): (o: seq<Entry>)
    ensures |o| == |sections| && forall i :: 0 <= i < |o| ==> o[i] == (sections[i].heading, sections[i].title)
  {
    seq(|sections|, i requires 0 <= i < |sections| => (sections[i].heading, sections[i].title))
  }

  /** The Unreleased entries, in order. */
  function UnreleasedOf(o: seq<Entry>): seq<Entry> {
    if o == [] then [] else (if o[0].1 == UNRELEASED then [o[0]] else []) + UnreleasedOf(o[1..])
  }

  /** The releases of one rank, in order. */
  function ReleasesOf(o: seq<Entry>, rank: Rank, k: int): seq<Entry> {
    if o == [] then [] else (if o[0].1 != UNRELEASED && rank(o[0].1) == k then [o[0]] else []) + ReleasesOf(o[1..], rank, k)
  }

  /** Unreleased sections in front, then the releases from the most recent on. */
  ghost predicate InOrder(o: seq<Entry>, rank: Rank) {
    forall i, j :: 0 <= i < j < |o| ==>
      o[i].1 == UNRELEASED || (o[j].1 != UNRELEASED && rank(o[i].1) >= rank(o[j].1))
  }

  /** The same sections, equal ones in the same order. */
  ghost predicate SameOrder(o: seq<Entry>, p: seq<Entry>, rank: Rank) {
    UnreleasedOf(o) == UnreleasedOf(p) && forall k :: ReleasesOf(o, rank, k) == ReleasesOf(p, rank, k)
  }

  lemma {:induction false} OutlineRest(sections: seq<Section>)
    requires sections != []
    ensures Outline(sections)[1..] == Outline(sections[1..])
  {
  }

  lemma {:induction false} OutlineConcat(a: seq<Section>, b: seq<Section>)
    ensures Outline(a + b) == Outline(a) + Outline(b)
  {
  }

  lemma {:induction false} UnreleasedConcat(o: seq<Entry>, p: seq<Entry>)
    ensures UnreleasedOf(o + p) == UnreleasedOf(o) + UnreleasedOf(p)
  {
    var both := o + p;
    if o == [] {
      assert both == p;
    } else {
      var rest := o[1..];
      UnreleasedConcat(rest, p);
      assert both[0] == o[0] && both[1..] == rest + p;
    }
  }

  lemma {:induction false} ReleasesConcat(o: seq<Entry>, p: seq<Entry>, rank: Rank, k: int)
    ensures ReleasesOf(o + p, rank, k) == ReleasesOf(o, rank, k) + ReleasesOf(p, rank, k)
  {
    var both := o + p;
    if o == [] {
      assert both == p;
    } else {
      var rest := o[1..];
      ReleasesConcat(rest, p, rank, k);
      assert both[0] == o[0] && both[1..] == rest + p;
    }
  }

  lemma {:induction false} AllOfKind(sections: seq<Section>, unreleased: bool)
    ensures forall i :: 0 <= i < |OfKind(sections, unreleased)| ==> (OfKind(sections, unreleased)[i].title == UNRELEASED) == unreleased
  {
    if sections != [] {
      AllOfKind(sections[1..], unreleased);
    }
  }

  lemma {:induction false} KindOutline(sections: seq<Section>, rank: Rank, k: int)
    ensures Outline(OfKind(sections, true)) == UnreleasedOf(Outline(sections))
    ensures Outline(OfKey(OfKind(sections, false), ByTitle(rank), k)) == ReleasesOf(Outline(sections), rank, k)
  {
    if sections != [] {
      var first, rest := sections[0], sections[1..];
      KindOutline(rest, rank, k);
      OutlineRest(sections);
      OutlineConcat([first], OfKind(rest, true));
      var releases := OfKind(rest, false);
      if first.title == UNRELEASED {
        assert OfKind(sections, false) == [] + releases == releases;
      } else {
        var own := if rank(first.title) == k then [first] else [];
        assert OfKind(sections, false) == [first] + releases;
        OfKeyCons(first, releases, ByTitle(rank), k);
        OutlineConcat(own, OfKey(releases, ByTitle(rank), k));
      }
    }
  }

  lemma {:induction false} AllReleased(sections: seq<Section>, rank: Rank, k: int)
    requires forall i :: 0 <= i < |sections| ==> sections[i].title != UNRELEASED
    ensures UnreleasedOf(Outline(sections)) == []
    ensures ReleasesOf(Outline(sections), rank, k) == Outline(OfKey(sections, ByTitle(rank), k))
  {
    if sections != [] {
      var first, rest := sections[0], sections[1..];
      AllReleased(rest, rank, k);
      OutlineRest(sections);
      OutlineConcat(if rank(first.title) == k then [first] else [], OfKey(rest, ByTitle(rank), k));
    }
  }

  lemma {:induction false} AllUnreleased(sections: seq<Section>, rank: Rank, k: int)
    requires forall i :: 0 <= i < |sections| ==> sections[i].title == UNRELEASED
    ensures UnreleasedOf(Outline(sections)) == Outline(sections) && ReleasesOf(Outline(sections), rank, k) == []
  {
    if sections != [] {
      AllUnreleased(sections[1..], rank, k);
      OutlineRest(sections);
    }
  }

  lemma {:induction false} SortedReleases(sections: seq<Section>, releases: seq<Section>, rank: Rank)
    requires releases == SortDesc(OfKind(sections, false), ByTitle(rank))
    ensures forall i :: 0 <= i < |releases| ==> releases[i].title != UNRELEASED
    ensures forall i, j :: 0 <= i < j < |releases| ==> rank(releases[i].title) >= rank(releases[j].title)
  {
    var kind := OfKind(sections, false);
    AllOfKind(sections, false);
    SortIsDescending(kind, ByTitle(rank));
    forall i | 0 <= i < |releases| ensures releases[i].title != UNRELEASED {
      assert releases[i] in multiset(releases);
      assert releases[i] in kind;
    }
    forall i, j | 0 <= i < j < |releases| ensures rank(releases[i].title) >= rank(releases[j].title) {
      assert ByTitle(rank)(releases[i]) >= ByTitle(rank)(releases[j]);
    }
  }

  lemma {:induction false} FrontThenBack(front: seq<Section>, back: seq<Section>, rank: Rank)
    requires forall i :: 0 <= i < |front| ==> front[i].title == UNRELEASED
    requires forall i :: 0 <= i < |back| ==> back[i].title != UNRELEASED
    requires forall i, j :: 0 <= i < j < |back| ==> rank(back[i].title) >= rank(back[j].title)
    ensures InOrder(Outline(front + back), rank)
  {
    var all, n := front + back, |front|;
    forall i, j | 0 <= i < j < |all|
      ensures all[i].title == UNRELEASED || (all[j].title != UNRELEASED && rank(all[i].title) >= rank(all[j].title))
    {
      assert i < n ==> all[i] == front[i];
      assert i >= n ==> all[i] == back[i - n] && all[j] == back[j - n];
    }
  }

  /** Sorting puts the sections in order and keeps equal ones as they were. */
  lemma {:induction false} SortedInOrder(sections: seq<Section>, rank: Rank)
    ensures InOrder(Outline(Sorted(sections, rank)), rank)
    ensures SameOrder(Outline(Sorted(sections, rank)), Outline(sections), rank)
  {
    var front, back := OfKind(sections, true), SortDesc(OfKind(sections, false), ByTitle(rank));
    AllOfKind(sections, true);
    SortedReleases(sections, back, rank);
    FrontThenBack(front, back, rank);
    SortedKind(sections, rank, 0);
    forall k ensures ReleasesOf(Outline(Sorted(sections, rank)), rank, k) == ReleasesOf(Outline(sections), rank, k) {
      SortedKind(sections, rank, k);
    }
  }

  lemma {:induction false} SortedKind(sections: seq<Section>, rank: Rank, k: int)
    ensures ReleasesOf(Outline(Sorted(sections, rank)), rank, k) == ReleasesOf(Outline(sections), rank, k)
    ensures UnreleasedOf(Outline(Sorted(sections, rank))) == UnreleasedOf(Outline(sections))
  {
    var front, back := OfKind(sections, true), SortDesc(OfKind(sections, false), ByTitle(rank));
    AllOfKind(sections, true);
    SortedReleases(sections, back, rank);
    assert forall i :: 0 <= i < |front| ==> front[i].title == UNRELEASED;
    AllUnreleased(front, rank, k);
    AllReleased(back, rank, k);
    KindOutline(sections, rank, k);
    SortIsStable(OfKind(sections, false), ByTitle(rank), k);
    OutlineConcat(front, back);
    UnreleasedConcat(Outline(front), Outline(back));
    ReleasesConcat(Outline(front), Outline(back), rank, k);
  }

  // ----- the steps before sorting -----

  /** What stands in front of the document when an Unreleased section has to be created. */
  function CreatedEntry(sections: seq<Section>, choice: Choice): seq<Entry> {
    if Promoted(sections, choice) != [] && UnreleasedOf(Outline(sections)) == [] then [("## [Unreleased]", UNRELEASED)] else []
  }

  lemma {:induction false} NoUnreleased(sections: seq<Section>)
    ensures FirstUnreleased(sections) == |sections| <==> UnreleasedOf(Outline(sections)) == []
  {
    if sections != [] {
      NoUnreleased(sections[1..]);
      OutlineRest(sections);
    }
  }

  lemma {:induction false} DroppedOutline(sections: seq<Section>, history: set<Key>)
    ensures Outline(DropDuplicates(sections, history)) == Outline(sections)
  {
  }

  lemma {:induction false} CutOutline(sections: seq<Section>, choice: Choice)
    ensures Outline(CutReleased(sections, choice)) == Outline(sections)
  {
    CutReleasedFirst(sections, choice);
    forall i | 0 <= i < |sections| ensures Outline(CutReleased(sections, choice))[i] == Outline(sections)[i] {
      CutReleasedAt(sections, choice, i);
    }
  }

  lemma {:induction false} AddedOutline(sections: seq<Section>, added: seq<(string, Key)>)
    ensures Outline(WithAdded(sections, added))
      == (if added != [] && FirstUnreleased(sections) == |sections| then [("## [Unreleased]", UNRELEASED)] else []) + Outline(sections)
  {
    var u := FirstUnreleased(sections);
    if added != [] && u == |sections| {
      OutlineConcat([NEW_UNRELEASED.(subsections := AddAll([], added))], sections);
    }
  }

  lemma {:induction false} NormalizedOutline(sections: seq<Section>)
    ensures Outline(Normalized(sections)) == Outline(sections)
  {
    if sections != [] {
      NormalizedAt(sections, 0);
    }
    forall i | 0 <= i < |sections| ensures Outline(Normalized(sections))[i] == Outline(sections)[i] {
      NormalizedAt(sections, i);
    }
  }

  lemma {:induction false} BeforeSorting(sections: seq<Section>, promotable: set<nat>, history: set<Key>)
    ensures var choice := StartsIn(promotable);
      Outline(Normalized(Promote(DropDuplicates(sections, history), choice))) == CreatedEntry(sections, choice) + Outline(sections)
  {
    var choice, dropped := StartsIn(promotable), DropDuplicates(sections, history);
    DroppedOutline(sections, history);
    DroppedSame(sections, history, choice);
    CutOutline(dropped, choice);
    CutReleasedFirst(dropped, choice);
    AddedOutline(CutReleased(dropped, choice), Promoted(dropped, choice));
    NormalizedOutline(Promote(dropped, choice));
    NoUnreleased(sections);
  }

  /**
   * The sections of the fixed changelog: those of the input, and an Unreleased one in front if one had to be created. The
   * Unreleased sections come first, in their order; the releases follow from the most recent on, equal ones in their order.
   */
  lemma {:induction false} FixedInOrder(sections: seq<Section>, promotable: set<nat>, history: set<Key>, rank: Rank)
    ensures var o := Outline(Fixed(sections, promotable, history, rank));
      InOrder(o, rank) && SameOrder(o, CreatedEntry(sections, StartsIn(promotable)) + Outline(sections), rank)
  {
    BeforeSorting(sections, promotable, history);
    SortedInOrder(Normalized(Promote(DropDuplicates(sections, history), StartsIn(promotable))), rank);
  }
}
