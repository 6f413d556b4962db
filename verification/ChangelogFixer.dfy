/** The fixer as it works: it walks the sections while it inserts one in front of them. */
module ChangelogFixer {
  import opened Collections
  import opened ChangelogDocument
  import opened ChangelogItems
  import opened ChangelogCut
  import opened ChangelogPromotion
  import opened ChangelogFix
  import opened StableSort

  // ----- adding in two parts -----

  lemma {:induction false} AddAllNext(subs: seq<Subsection>, added: seq<(string, Key)>, x: (string, Key))
    ensures AddAll(subs, added + [x]) == AddItem(AddAll(subs, added), x.0, x.1)
  {
    assert (added + [x])[..|added|] == added;
  }

  lemma {:induction false} AddAllUpTo(subs: seq<Subsection>, a: seq<(string, Key)>, b: seq<(string, Key)>, n: nat)
    requires n <= |b|
    ensures AddAll(subs, a + b[..n]) == AddAll(AddAll(subs, a), b[..n])
    decreases n
  {
    if n == 0 {
      assert a + b[..0] == a && b[..0] == [];
    } else {
      AddAllUpTo(subs, a, b, n - 1);
      AddAllNext(subs, a + b[..n - 1], b[n - 1]);
      AddAllNext(AddAll(subs, a), b[..n - 1], b[n - 1]);
      LastOne(a, b, n);
    }
  }

  lemma {:induction false} LastOne<T>(a: seq<T>, b: seq<T>, n: nat)
    requires 0 < n <= |b|
    ensures b[..n] == b[..n - 1] + [b[n - 1]] && a + b[..n] == a + b[..n - 1] + [b[n - 1]]
  {
  }

  lemma {:induction false} AddAllConcat(subs: seq<Subsection>, a: seq<(string, Key)>, b: seq<(string, Key)>)
    ensures AddAll(subs, a + b) == AddAll(AddAll(subs, a), b)
  {
    AddAllUpTo(subs, a, b, |b|);
    assert b[..|b|] == b;
  }

  lemma {:induction false} WithAddedConcat(sections: seq<Section>, a: seq<(string, Key)>, b: seq<(string, Key)>)
    ensures WithAdded(WithAdded(sections, a), b) == WithAdded(sections, a + b)
  {
    var u := FirstUnreleased(sections);
    if a == [] {
      assert a + b == b;
    } else if b == [] {
      assert a + b == a;
    } else if u < |sections| {
      PresentReceives(sections, a, b);
    } else {
      CreatedReceives(sections, a, b);
    }
  }

  /** The first Unreleased section with other subsections. */
  function Refilled(sections: seq<Section>, subs: seq<Subsection>): seq<Section>
    requires FirstUnreleased(sections) < |sections|
  {
    var u := FirstUnreleased(sections);
    sections[u := sections[u].(subsections := subs)]
  }

  lemma {:induction false} RefilledAgain(sections: seq<Section>, x: seq<Subsection>, y: seq<Subsection>)
    requires FirstUnreleased(sections) < |sections|
    ensures FirstUnreleased(Refilled(sections, x)) == FirstUnreleased(sections) && |Refilled(sections, x)| == |sections|
    ensures OwnSubs(Refilled(sections, x)) == x && Refilled(Refilled(sections, x), y) == Refilled(sections, y)
  {
    SameFirstUnreleased(Refilled(sections, x), sections);
  }

  lemma {:induction false} WithAddedIs(sections: seq<Section>, added: seq<(string, Key)>)
    requires FirstUnreleased(sections) < |sections| && added != []
    ensures WithAdded(sections, added) == Refilled(sections, AddAll(OwnSubs(sections), added))
  {
  }

  lemma {:induction false} PresentReceives(sections: seq<Section>, a: seq<(string, Key)>, b: seq<(string, Key)>)
    requires a != [] && b != [] && FirstUnreleased(sections) < |sections|
    ensures WithAdded(WithAdded(sections, a), b) == WithAdded(sections, a + b)
  {
    var own := OwnSubs(sections);
    WithAddedIs(sections, a);
    RefilledReceives(sections, AddAll(own, a), b, Refilled(sections, AddAll(own, a)));
    AddAllConcat(own, a, b);
    WithAddedIs(sections, a + b);
  }

  lemma {:induction false} RefilledReceives(sections: seq<Section>, first: seq<Subsection>, b: seq<(string, Key)>, w: seq<Section>)
    requires FirstUnreleased(sections) < |sections| && b != [] && w == Refilled(sections, first)
    ensures WithAdded(w, b) == Refilled(sections, AddAll(first, b))
  {
    RefilledAgain(sections, first, AddAll(first, b));
    WithAddedIs(w, b);
  }

  lemma {:induction false} CreatedReceives(sections: seq<Section>, a: seq<(string, Key)>, b: seq<(string, Key)>)
    requires a != [] && b != [] && FirstUnreleased(sections) == |sections|
    ensures WithAdded(WithAdded(sections, a), b) == WithAdded(sections, a + b)
  {
    AddAllConcat([], a, b);
    var once := WithAdded(sections, a);
    assert once[0].title == UNRELEASED && FirstUnreleased(once) == 0;
    HeadReplaced(NEW_UNRELEASED.(subsections := AddAll([], a)), NEW_UNRELEASED.(subsections := AddAll([], a + b)), sections);
  }

  lemma {:induction false} HeadReplaced<T>(x: T, y: T, rest: seq<T>)
    ensures ([x] + rest)[0 := y] == [y] + rest
  {
  }

  lemma {:induction false} ReceiverStays(sections: seq<Section>, added: seq<(string, Key)>)
    requires FirstUnreleased(sections) < |sections|
    ensures FirstUnreleased(WithAdded(sections, added)) == FirstUnreleased(sections)
  {
    if added != [] {
      WithAddedIs(sections, added);
      RefilledAgain(sections, AddAll(OwnSubs(sections), added), []);
    }
  }

  // ----- one subsection -----

  method SelectItems(items: seq<Item>, choice: Choice) returns (chosen: seq<Item>)
    ensures chosen == Chosen(items, choice)
  {
    chosen := [];
    for i := 0 to |items|
      invariant chosen + Chosen(items[i..], choice) == Chosen(items, choice)
    {
      ChosenNext(items, choice, i, chosen);
      if choice(items[i]) {
        chosen := chosen + [items[i]];
      }
    }
    assert items[|items|..] == [];
  }

  lemma {:induction false} ChosenNext(items: seq<Item>, choice: Choice, i: nat, chosen: seq<Item>)
    requires i < |items|
    ensures chosen + Chosen(items[i..], choice)
      == (if choice(items[i]) then chosen + [items[i]] else chosen) + Chosen(items[i + 1..], choice)
  {
    assert items[i..][1..] == items[i + 1..];
  }

  method FilterLines(lines: seq<NumberedLine>, items: seq<Item>) returns (left: seq<NumberedLine>)
    ensures left == Filtered(lines, items)
  {
    left := [];
    for i := 0 to |lines|
      invariant left + Filtered(lines[i..], items) == Filtered(lines, items)
    {
      FilteredNext(lines, items, i, left);
      if !InRanges(items, lines[i].lineNumber) {
        left := left + [lines[i]];
      }
    }
    assert lines[|lines|..] == [];
  }

  lemma {:induction false} FilteredNext(lines: seq<NumberedLine>, items: seq<Item>, i: nat, left: seq<NumberedLine>)
    requires i < |lines|
    ensures left + Filtered(lines[i..], items)
      == (if InRanges(items, lines[i].lineNumber) then left else left + [lines[i]]) + Filtered(lines[i + 1..], items)
  {
    assert lines[i..][1..] == lines[i + 1..];
  }

  /** The lines can be cut by number, or there is nothing to cut. */
  predicate Cuttable(sub: Subsection, choice: Choice) {
    Increasing(sub.lines) || Chosen(Items(sub.lines), choice) == []
  }

  predicate AllCuttable(subs: seq<Subsection>, choice: Choice) {
    forall i :: 0 <= i < |subs| ==> Cuttable(subs[i], choice)
  }

  /** Takes the chosen items out of a subsection. */
  method CutLines(sub: Subsection, choice: Choice) returns (items: seq<Item>, left: Subsection)
    requires Cuttable(sub, choice)
    ensures items == Chosen(Items(sub.lines), choice) && left == Subsection(sub.title, Cut(sub.lines, choice))
  {
    var all := ParseItems(sub.lines);
    items := SelectItems(all, choice);
    if |items| == 0 {
      CutNothing(sub.lines, choice);
      left := sub;
    } else {
      FilterIsCut(sub.lines, choice);
      var lines := FilterLines(sub.lines, items);
      left := Subsection(sub.title, lines);
    }
  }

  /** Adds the items of one subsection, one after the other. */
  method AddItems(subs0: seq<Subsection>, title: string, items: seq<Item>) returns (subs: seq<Subsection>)
    ensures subs == AddAll(subs0, Titled(title, items))
  {
    subs := subs0;
    for i := 0 to |items|
      invariant subs == AddAll(subs0, Titled(title, items[..i]))
    {
      AddedNext(subs0, title, items, i);
      subs := AddOne(subs, title, items[i].lines);
    }
    assert items[..|items|] == items;
  }

  lemma {:induction false} AddedNext(subs: seq<Subsection>, title: string, items: seq<Item>, i: nat)
    requires i < |items|
    ensures AddAll(subs, Titled(title, items[..i + 1])) == AddItem(AddAll(subs, Titled(title, items[..i])), title, items[i].lines)
  {
    assert Titled(title, items[..i + 1]) == Titled(title, items[..i]) + [(title, items[i].lines)];
    AddAllNext(subs, Titled(title, items[..i]), (title, items[i].lines));
  }

  method AddOne(subs: seq<Subsection>, title: string, key: Key) returns (r: seq<Subsection>)
    ensures r == AddItem(subs, title, key)
  {
    var j := LastWith(subs, title);
    r := if j < |subs| then subs else subs + [Subsection(title, [])];
    var present := ParseItems(r[j].lines);
    ItemsKeys(r[j].lines);
    var found := exists i :: 0 <= i < |present| && present[i].lines == key;
    HasKey(present, key);
    if !found {
      r := r[j := Subsection(r[j].title, Synthetic(Appended(Texts(r[j].lines), key)))];
    }
  }

  lemma {:induction false} HasKey(items: seq<Item>, key: Key)
    ensures (exists i :: 0 <= i < |items| && items[i].lines == key) <==> key in KeysOf(items)
  {
    if key in KeysOf(items) {
      var i :| 0 <= i < |KeysOf(items)| && KeysOf(items)[i] == key;
      assert items[i].lines == key;
    }
    if exists i :: 0 <= i < |items| && items[i].lines == key {
      var i :| 0 <= i < |items| && items[i].lines == key;
      assert KeysOf(items)[i] == key;
    }
  }

  // ----- one section -----

  /** What visiting the section at `cur` makes of the sections. */
  function Visited(sections: seq<Section>, cur: nat, choice: Choice): seq<Section>
    requires cur < |sections|
  {
    if sections[cur].title == UNRELEASED then sections
    else WithAdded(sections[cur := CutSection(sections[cur], choice)], ChosenFrom(sections[cur].subsections, choice))
  }

  /** The section with its first `j` subsections cut. */
  function CutUpTo(s: Section, j: nat, choice: Choice): Section
    requires j <= |s.subsections|
  {
    s.(subsections := CutSubs(s.subsections[..j], choice) + s.subsections[j..])
  }

  lemma {:induction false} CutSubsConcat(a: seq<Subsection>, b: seq<Subsection>, choice: Choice)
    ensures CutSubs(a + b, choice) == CutSubs(a, choice) + CutSubs(b, choice)
    decreases |a|
  {
    if a == [] {
      assert a + b == b;
    } else {
      assert (a + b)[1..] == a[1..] + b;
      CutSubsConcat(a[1..], b, choice);
    }
  }

  lemma {:induction false} ChosenFromConcat(a: seq<Subsection>, b: seq<Subsection>, choice: Choice)
    ensures ChosenFrom(a + b, choice) == ChosenFrom(a, choice) + ChosenFrom(b, choice)
    decreases |a|
  {
    if a == [] {
      assert a + b == b;
    } else {
      var rest := a[1..];
      var head := Titled(a[0].title, Chosen(Items(a[0].lines), choice));
      calc {
        ChosenFrom(a + b, choice);
      == { assert a + b == [a[0]] + (rest + b); ChosenFromCons(a[0], rest + b, choice); }
        head + ChosenFrom(rest + b, choice);
      == { ChosenFromConcat(rest, b, choice); }
        head + (ChosenFrom(rest, choice) + ChosenFrom(b, choice));
      == { Assoc(head, ChosenFrom(rest, choice), ChosenFrom(b, choice)); }
        head + ChosenFrom(rest, choice) + ChosenFrom(b, choice);
      == { assert a == [a[0]] + rest; ChosenFromCons(a[0], rest, choice); }
        ChosenFrom(a, choice) + ChosenFrom(b, choice);
      }
    }
  }

  lemma {:induction false} ChosenFromCons(sub: Subsection, rest: seq<Subsection>, choice: Choice)
    ensures ChosenFrom([sub] + rest, choice) == Titled(sub.title, Chosen(Items(sub.lines), choice)) + ChosenFrom(rest, choice)
  {
    assert ([sub] + rest)[1..] == rest;
  }

  lemma {:induction false} CutSubsLength(a: seq<Subsection>, choice: Choice)
    ensures |CutSubs(a, choice)| == |a|
    decreases |a|
  {
    if a != [] {
      CutSubsLength(a[1..], choice);
    }
  }

  lemma {:induction false} CutUpToNext(s: Section, j: nat, choice: Choice)
    requires j < |s.subsections|
    ensures |CutUpTo(s, j, choice).subsections| == |s.subsections| && CutUpTo(s, j, choice).subsections[j] == s.subsections[j]
    ensures var cut := Subsection(s.subsections[j].title, Cut(s.subsections[j].lines, choice));
      CutUpTo(s, j + 1, choice) == CutUpTo(s, j, choice).(subsections := CutUpTo(s, j, choice).subsections[j := cut])
  {
    var sub := s.subsections[j];
    SliceNext(s.subsections, j);
    CutSubsConcat(s.subsections[..j], [sub], choice);
    CutSubsLength(s.subsections[..j], choice);
    CutOne(sub, choice);
    OneExchanged(CutSubs(s.subsections[..j], choice), s.subsections, j, Subsection(sub.title, Cut(sub.lines, choice)));
  }

  lemma {:induction false} OneExchanged<T>(front: seq<T>, s: seq<T>, j: nat, x: T)
    requires j < |s| && |front| == j
    ensures |front + s[j..]| == |s| && (front + s[j..])[j] == s[j]
    ensures front + [x] + s[j + 1..] == (front + s[j..])[j := x]
  {
  }

  lemma {:induction false} ChosenUpToNext(subs: seq<Subsection>, j: nat, choice: Choice)
    requires j < |subs|
    ensures ChosenFrom(subs[..j + 1], choice)
      == ChosenFrom(subs[..j], choice) + Titled(subs[j].title, Chosen(Items(subs[j].lines), choice))
  {
    SliceNext(subs, j);
    ChosenFromConcat(subs[..j], [subs[j]], choice);
    CutOne(subs[j], choice);
  }

  lemma {:induction false} CutOne(sub: Subsection, choice: Choice)
    ensures CutSubs([sub], choice) == [Subsection(sub.title, Cut(sub.lines, choice))]
    ensures ChosenFrom([sub], choice) == Titled(sub.title, Chosen(Items(sub.lines), choice))
  {
    assert [sub][1..] == [];
  }

  /** The first Unreleased section, made in front of the others if need be, receives the items. */
  method Receive(sections: seq<Section>, title: string, items: seq<Item>) returns (r: seq<Section>)
    requires items != []
    ensures r == WithAdded(sections, Titled(title, items))
  {
    var u := FirstUnreleased(sections);
    r := sections;
    if u == |sections| {
      r := [NEW_UNRELEASED] + sections;
      u := 0;
    }
    var subs := AddItems(r[u].subsections, title, items);
    ReceivedIs(sections, title, items);
    r := r[u := r[u].(subsections := subs)];
  }

  lemma {:induction false} ReceivedIs(sections: seq<Section>, title: string, items: seq<Item>)
    requires items != []
    ensures var u, added := FirstUnreleased(sections), Titled(title, items);
      if u < |sections| then WithAdded(sections, added) == sections[u := sections[u].(subsections := AddAll(sections[u].subsections, added))]
      else WithAdded(sections, added) == ([NEW_UNRELEASED] + sections)[0 := NEW_UNRELEASED.(subsections := AddAll([], added))]
  {
    assert |Titled(title, items)| == |items|;
    HeadReplaced(NEW_UNRELEASED, NEW_UNRELEASED.(subsections := AddAll([], Titled(title, items))), sections);
  }

  /** Where the visited section is once `added` has been received. */
  function Moved(base: seq<Section>, cur: nat, added: seq<(string, Key)>): nat {
    if added != [] && FirstUnreleased(base) == |base| then cur + 1 else cur
  }

  /** How far a visit has come: the first `j` subsections are cut and what they gave has been received. */
  ghost predicate Visiting(sections0: seq<Section>, cur0: nat, j: nat, choice: Choice, sections: seq<Section>, cur: nat)
    requires cur0 < |sections0| && j <= |sections0[cur0].subsections|
  {
    var base := sections0[cur0 := CutUpTo(sections0[cur0], j, choice)];
    var added := ChosenFrom(sections0[cur0].subsections[..j], choice);
    sections == WithAdded(base, added) && cur == Moved(base, cur0, added)
  }

  /** The visited section is not the one that receives. */
  lemma {:induction false} VisitedApart(base: seq<Section>, cur: nat, added: seq<(string, Key)>, s: Section)
    requires cur < |base| && base[cur].title != UNRELEASED && s.title == base[cur].title
    ensures var at := Moved(base, cur, added);
      && at < |WithAdded(base, added)| && WithAdded(base, added)[at] == base[cur]
      && WithAdded(base, added)[at := s] == WithAdded(base[cur := s], added)
      && Moved(base[cur := s], cur, added) == at
  {
    SameFirstUnreleased(base[cur := s], base);
    var u := FirstUnreleased(base);
    if added == [] {
    } else if u < |base| {
      assert u != cur;
      Swapped(base, u, base[u].(subsections := AddAll(base[u].subsections, added)), cur, s);
    } else {
      Behind(NEW_UNRELEASED.(subsections := AddAll([], added)), base, cur, s);
    }
  }

  lemma {:induction false} Swapped<T>(base: seq<T>, u: nat, x: T, cur: nat, s: T)
    requires u < |base| && cur < |base| && u != cur
    ensures base[u := x][cur := s] == base[cur := s][u := x] && base[u := x][cur] == base[cur] && base[cur := s][u] == base[u]
  {
  }

  lemma {:induction false} Behind<T>(first: T, base: seq<T>, cur: nat, s: T)
    requires cur < |base|
    ensures ([first] + base)[cur + 1] == base[cur] && ([first] + base)[cur + 1 := s] == [first] + base[cur := s]
  {
  }

  lemma {:induction false} MovedOn(base: seq<Section>, cur: nat, a: seq<(string, Key)>, b: seq<(string, Key)>)
    requires cur < |base|
    ensures Moved(WithAdded(base, a), Moved(base, cur, a), b) == Moved(base, cur, a + b)
  {
    if a != [] {
      if FirstUnreleased(base) < |base| {
        ReceiverStays(base, a);
      }
    } else {
      assert a + b == b;
    }
  }

  lemma {:induction false} VisitNext(sections0: seq<Section>, cur0: nat, j: nat, choice: Choice, sections: seq<Section>, cur: nat,
                  left: Subsection, items: seq<Item>)
    requires cur0 < |sections0| && j < |sections0[cur0].subsections| && sections0[cur0].title != UNRELEASED
    requires Visiting(sections0, cur0, j, choice, sections, cur)
    requires var sub := sections0[cur0].subsections[j];
      left == Subsection(sub.title, Cut(sub.lines, choice)) && items == Chosen(Items(sub.lines), choice)
    ensures cur < |sections| && j < |sections[cur].subsections| && sections[cur].subsections[j] == sections0[cur0].subsections[j]
    ensures var cut := sections[cur := sections[cur].(subsections := sections[cur].subsections[j := left])];
      var title := sections0[cur0].subsections[j].title;
      Visiting(sections0, cur0, j + 1, choice, WithAdded(cut, Titled(title, items)), Moved(cut, cur, Titled(title, items)))
  {
    var s := sections0[cur0];
    var base := sections0[cur0 := CutUpTo(s, j, choice)];
    var added := ChosenFrom(s.subsections[..j], choice);
    var more := Titled(s.subsections[j].title, items);
    var next := CutUpTo(s, j + 1, choice);
    CutUpToNext(s, j, choice);
    ChosenUpToNext(s.subsections, j, choice);
    VisitedApart(base, cur0, added, next);
    assert base[cur0 := next] == sections0[cur0 := next];
    WithAddedConcat(base[cur0 := next], added, more);
    MovedOn(base[cur0 := next], cur0, added, more);
  }

  /** Visits one section; the Unreleased section may appear in front of it meanwhile. */
  method VisitSection(sections0: seq<Section>, cur0: nat, choice: Choice) returns (sections: seq<Section>)
    requires cur0 < |sections0| && (sections0[cur0].title == UNRELEASED || AllCuttable(sections0[cur0].subsections, choice))
    ensures sections == Visited(sections0, cur0, choice)
  {
    sections := sections0;
    if sections0[cur0].title == UNRELEASED {
      return;
    }
    var cur := cur0;
    VisitStart(sections0, cur0, choice);
    for j := 0 to |sections0[cur0].subsections|
      invariant Visiting(sections0, cur0, j, choice, sections, cur)
    {
      ghost var before, at := sections, cur;
      var sub := sections0[cur0].subsections[j];
      var items, left := CutLines(sub, choice);
      VisitNext(sections0, cur0, j, choice, sections, cur, left, items);
      sections := sections[cur := sections[cur].(subsections := sections[cur].subsections[j := left])];
      if |items| != 0 {
        if FirstUnreleased(sections) == |sections| {
          cur := cur + 1;
        }
        sections := Receive(sections, sub.title, items);
      }
    }
    VisitEnd(sections0, cur0, choice);
  }

  lemma {:induction false} VisitStart(sections0: seq<Section>, cur0: nat, choice: Choice)
    requires cur0 < |sections0|
    ensures Visiting(sections0, cur0, 0, choice, sections0, cur0)
  {
    var s := sections0[cur0];
    assert s.subsections[..0] == [] && CutSubs([], choice) + s.subsections[0..] == s.subsections;
    assert sections0[cur0 := s] == sections0;
  }

  lemma {:induction false} VisitEnd(sections0: seq<Section>, cur0: nat, choice: Choice)
    requires cur0 < |sections0|
    ensures var s := sections0[cur0];
      CutUpTo(s, |s.subsections|, choice) == CutSection(s, choice) && s.subsections[..|s.subsections|] == s.subsections
  {
    var s := sections0[cur0];
    assert s.subsections[..|s.subsections|] == s.subsections && s.subsections[|s.subsections|..] == [];
    assert CutSubs(s.subsections, choice) + [] == CutSubs(s.subsections, choice);
  }

  // ----- all sections -----

  lemma {:induction false} PromotedConcat(a: seq<Section>, b: seq<Section>, choice: Choice)
    ensures Promoted(a + b, choice) == Promoted(a, choice) + Promoted(b, choice)
    decreases |a|
  {
    if a == [] {
      assert a + b == b;
    } else {
      assert (a + b)[1..] == a[1..] + b;
      PromotedConcat(a[1..], b, choice);
    }
  }

  /** The original sections with the first `d` cut. */
  function CutBefore(sections: seq<Section>, d: nat, choice: Choice): seq<Section>
    requires d <= |sections|
  {
    CutReleased(sections[..d], choice) + sections[d..]
  }

  /** The walk after `d` of the original sections. */
  function Walked(sections: seq<Section>, d: nat, choice: Choice): seq<Section>
    requires d <= |sections|
  {
    WithAdded(CutBefore(sections, d, choice), Promoted(sections[..d], choice))
  }

  /** Where the original section `d` is by then. */
  function Place(sections: seq<Section>, d: nat, choice: Choice): nat
    requires d <= |sections|
  {
    Moved(CutBefore(sections, d, choice), d, Promoted(sections[..d], choice))
  }

  function CutIfReleased(s: Section, choice: Choice): Section {
    if s.title == UNRELEASED then s else CutSection(s, choice)
  }

  lemma {:induction false} CutBeforeShape(sections: seq<Section>, d: nat, choice: Choice)
    requires d <= |sections|
    ensures |CutBefore(sections, d, choice)| == |sections|
    ensures FirstUnreleased(CutBefore(sections, d, choice)) == FirstUnreleased(sections)
    ensures forall i :: d <= i < |sections| ==> CutBefore(sections, d, choice)[i] == sections[i]
    ensures forall i :: 0 <= i < d ==> CutBefore(sections, d, choice)[i] == CutIfReleased(sections[i], choice)
  {
    CutBeforeAt(sections, d, choice);
    SameFirstUnreleased(CutBefore(sections, d, choice), sections);
  }

  lemma {:induction false} CutBeforeAt(sections: seq<Section>, d: nat, choice: Choice)
    requires d <= |sections|
    ensures |CutBefore(sections, d, choice)| == |sections|
    ensures forall i :: d <= i < |sections| ==> CutBefore(sections, d, choice)[i] == sections[i]
    ensures forall i :: 0 <= i < d ==> CutBefore(sections, d, choice)[i] == CutIfReleased(sections[i], choice)
  {
    CutReleasedFirst(sections[..d], choice);
    forall i | 0 <= i < d ensures CutBefore(sections, d, choice)[i] == CutIfReleased(sections[i], choice) {
      CutReleasedAt(sections[..d], choice, i);
    }
  }

  lemma {:induction false} CutBeforeNext(sections: seq<Section>, d: nat, choice: Choice)
    requires d < |sections|
    ensures |CutBefore(sections, d, choice)| == |sections|
    ensures CutBefore(sections, d + 1, choice) == CutBefore(sections, d, choice)[d := CutIfReleased(sections[d], choice)]
    ensures Promoted(sections[..d + 1], choice) == Promoted(sections[..d], choice) + PromotedFrom(sections[d], choice)
  {
    CutBeforeAt(sections, d, choice);
    CutBeforeAt(sections, d + 1, choice);
    PromotedNext(sections, d, choice);
  }

  function PromotedFrom(s: Section, choice: Choice): seq<(string, Key)> {
    if s.title == UNRELEASED then [] else ChosenFrom(s.subsections, choice)
  }

  lemma {:induction false} PromotedNext(sections: seq<Section>, d: nat, choice: Choice)
    requires d < |sections|
    ensures Promoted(sections[..d + 1], choice) == Promoted(sections[..d], choice) + PromotedFrom(sections[d], choice)
  {
    assert sections[..d + 1] == sections[..d] + [sections[d]];
    PromotedConcat(sections[..d], [sections[d]], choice);
    PromotedOne(sections[d], choice);
  }

  lemma {:induction false} PromotedOne(s: Section, choice: Choice)
    ensures Promoted([s], choice) == PromotedFrom(s, choice)
  {
    assert [s][1..] == [];
  }

  /** Visiting the next original section takes the walk one section further. */
  lemma {:induction false} WalkReleased(sections: seq<Section>, d: nat, choice: Choice)
    requires d < |sections| && sections[d].title != UNRELEASED
    ensures var at := Place(sections, d, choice);
      at < |Walked(sections, d, choice)| && Walked(sections, d, choice)[at] == sections[d]
      && Visited(Walked(sections, d, choice), at, choice) == Walked(sections, d + 1, choice)
  {
    var base, added := CutBefore(sections, d, choice), Promoted(sections[..d], choice);
    var cut, more := CutSection(sections[d], choice), ChosenFrom(sections[d].subsections, choice);
    CutBeforeShape(sections, d, choice);
    CutBeforeNext(sections, d, choice);
    VisitedApart(base, d, added, cut);
    WithAddedConcat(base[d := cut], added, more);
  }

  lemma {:induction false} UnreleasedTitle(base: seq<Section>, d: nat, added: seq<(string, Key)>)
    requires d < |base| && base[d].title == UNRELEASED
    ensures Moved(base, d, added) == d && d < |WithAdded(base, added)| && WithAdded(base, added)[d].title == UNRELEASED
  {
  }

  lemma {:induction false} WalkedSame(sections: seq<Section>, d: nat, choice: Choice)
    requires d < |sections| && sections[d].title == UNRELEASED
    ensures Walked(sections, d + 1, choice) == Walked(sections, d, choice)
  {
    CutBeforeShape(sections, d, choice);
    CutBeforeNext(sections, d, choice);
    assert CutBefore(sections, d, choice)[d := sections[d]] == CutBefore(sections, d, choice);
    assert Promoted(sections[..d], choice) + [] == Promoted(sections[..d], choice);
  }

  lemma {:induction false} WalkUnreleased(sections: seq<Section>, d: nat, choice: Choice)
    requires d < |sections| && sections[d].title == UNRELEASED
    ensures var at := Place(sections, d, choice);
      at < |Walked(sections, d, choice)| && Walked(sections, d, choice)[at].title == UNRELEASED
      && Visited(Walked(sections, d, choice), at, choice) == Walked(sections, d + 1, choice)
  {
    CutBeforeShape(sections, d, choice);
    UnreleasedTitle(CutBefore(sections, d, choice), d, Promoted(sections[..d], choice));
    WalkedSame(sections, d, choice);
    VisitUnreleased(Walked(sections, d, choice), Place(sections, d, choice), choice);
  }

  lemma {:induction false} VisitUnreleased(w: seq<Section>, at: nat, choice: Choice)
    requires at < |w| && w[at].title == UNRELEASED
    ensures Visited(w, at, choice) == w
  {
  }

  lemma {:induction false} NothingLeft(subs: seq<Subsection>, choice: Choice)
    ensures AllCuttable(CutSubs(subs, choice), choice)
    ensures CutSubs(CutSubs(subs, choice), choice) == CutSubs(subs, choice) && ChosenFrom(CutSubs(subs, choice), choice) == []
    decreases |subs|
  {
    if subs != [] {
      var lines := Cut(subs[0].lines, choice);
      CutItems(subs[0].lines, choice);
      NothingChosenTwice(Items(subs[0].lines), choice);
      CutNothing(lines, choice);
      NothingLeft(subs[1..], choice);
      var first, rest := Subsection(subs[0].title, lines), CutSubs(subs[1..], choice);
      assert ([first] + rest)[1..] == rest;
    }
  }

  lemma {:induction false} VisitNothing(w: seq<Section>, d: nat, s: Section, choice: Choice)
    requires d < |w| && w[d] == CutSection(s, choice) && s.title != UNRELEASED
    ensures AllCuttable(w[d].subsections, choice) && Visited(w, d, choice) == w
  {
    NothingLeft(s.subsections, choice);
    assert CutSection(w[d], choice) == w[d];
    assert w[d := w[d]] == w;
  }

  /** The section that is visited again, because one was inserted before it, has nothing left to promote. */
  lemma {:induction false} SecondVisitIsHarmless(sections: seq<Section>, d: nat, choice: Choice)
    requires 0 < d <= |sections| && Place(sections, d, choice) == d + 1
    ensures var w := Walked(sections, d, choice);
      d < |w| && AllCuttable(w[d].subsections, choice) && Visited(w, d, choice) == w
  {
    CutBeforeShape(sections, d, choice);
    var w := Walked(sections, d, choice);
    assert w[d] == CutBefore(sections, d, choice)[d - 1] == CutIfReleased(sections[d - 1], choice);
    VisitNothing(w, d, sections[d - 1], choice);
  }

  // ----- the walk -----

  /** The iterator stands at the next original section, or at the one before it, for the second time. */
  ghost predicate Walking(sections0: seq<Section>, d: nat, again: bool, choice: Choice, sections: seq<Section>, i: nat) {
    && d <= |sections0| && sections == Walked(sections0, d, choice)
    && Place(sections0, d, choice) == (if again then i + 1 else i)
    && (again ==> 0 < d == i)
  }

  lemma {:induction false} PlaceIs(sections: seq<Section>, d: nat, choice: Choice)
    requires d <= |sections|
    ensures Place(sections, d, choice) in {d, d + 1}
    ensures |Walked(sections, d, choice)| == |sections| + if Place(sections, d, choice) == d then 0 else 1
  {
    CutBeforeShape(sections, d, choice);
  }

  lemma {:induction false} PlaceGrows(sections: seq<Section>, d: nat, choice: Choice)
    requires d < |sections|
    ensures Place(sections, d, choice) == d + 1 ==> Place(sections, d + 1, choice) == d + 2
  {
    CutBeforeShape(sections, d, choice);
    CutBeforeShape(sections, d + 1, choice);
    CutBeforeNext(sections, d, choice);
  }

  predicate AllSectionsCuttable(sections: seq<Section>, choice: Choice) {
    forall i :: 0 <= i < |sections| ==> sections[i].title == UNRELEASED || AllCuttable(sections[i].subsections, choice)
  }

  /** Promotes by visiting the sections in turn, even while one is inserted in front of the visited one. */
  method PromoteItems(sections0: seq<Section>, choice: Choice) returns (sections: seq<Section>)
    requires AllSectionsCuttable(sections0, choice)
    ensures sections == Promote(sections0, choice)
  {
    sections := sections0;
    var i := 0;
    ghost var d, again := 0, false;
    WalkStart(sections0, choice);
    while i < |sections|
      invariant Walking(sections0, d, again, choice, sections, i)
      decreases |sections0| - d, if again then 1 else 0
    {
      PlaceIs(sections0, d, choice);
      if again {
        SecondVisitIsHarmless(sections0, d, choice);
      } else if sections0[d].title == UNRELEASED {
        WalkUnreleased(sections0, d, choice);
      } else {
        WalkReleased(sections0, d, choice);
      }
      sections := VisitSection(sections, i, choice);
      if again {
        again := false;
      } else {
        PlaceGrows(sections0, d, choice);
        PlaceIs(sections0, d + 1, choice);
        again := Place(sections0, d + 1, choice) == i + 2;
        d := d + 1;
      }
      i := i + 1;
    }
    PlaceIs(sections0, d, choice);
    WalkEnd(sections0, choice);
  }

  lemma {:induction false} WalkStart(sections: seq<Section>, choice: Choice)
    ensures Walking(sections, 0, false, choice, sections, 0)
  {
    assert sections[..0] == [] && CutReleased([], choice) + sections[0..] == sections;
  }

  lemma {:induction false} WalkEnd(sections: seq<Section>, choice: Choice)
    ensures Walked(sections, |sections|, choice) == Promote(sections, choice)
  {
    assert sections[..|sections|] == sections && sections[|sections|..] == [];
    assert CutReleased(sections, choice) + [] == CutReleased(sections, choice);
  }

  // ----- the other steps -----

  method CollectKeys(sections: seq<Section>) returns (keys: set<Key>)
    ensures keys == ReleasedKeys(sections)
  {
    keys := {};
    for i := 0 to |sections|
      invariant keys + ReleasedKeys(sections[i..]) == ReleasedKeys(sections)
    {
      assert sections[i..][1..] == sections[i + 1..];
      if sections[i].title != UNRELEASED {
        keys := keys + AllKeys(sections[i].subsections);
      }
    }
    assert sections[|sections|..] == [];
  }

  /** Takes the released items out of the first Unreleased section. */
  method DropUnreleasedDuplicates(sections0: seq<Section>, history: set<Key>) returns (sections: seq<Section>)
    requires forall i, j :: 0 <= i < |sections0| && 0 <= j < |sections0[i].subsections| ==> Increasing(sections0[i].subsections[j].lines)
    ensures sections == DropDuplicates(sections0, history)
  {
    sections := sections0;
    var u := FirstUnreleased(sections);
    if u == |sections| {
      return;
    }
    var released := CollectKeys(sections);
    var subs := CutEach(sections[u].subsections, IsOneOf(released + history));
    sections := sections[u := sections[u].(subsections := subs)];
  }

  method CutEach(own: seq<Subsection>, choice: Choice) returns (subs: seq<Subsection>)
    requires forall j :: 0 <= j < |own| ==> Increasing(own[j].lines)
    ensures subs == CutSubs(own, choice)
  {
    subs := [];
    assert own[..0] == [];
    for j := 0 to |own|
      invariant CutSoFar(own, j, choice, subs)
    {
      var _, left := CutLines(own[j], choice);
      CutSoFarNext(own, j, choice, subs);
      subs := subs + [left];
    }
    assert own[..|own|] == own;
  }

  ghost predicate CutSoFar(own: seq<Subsection>, j: nat, choice: Choice, subs: seq<Subsection>) {
    j <= |own| && subs == CutSubs(own[..j], choice)
  }

  lemma {:induction false} CutSoFarNext(own: seq<Subsection>, j: nat, choice: Choice, subs: seq<Subsection>)
    requires j < |own| && CutSoFar(own, j, choice, subs)
    ensures CutSoFar(own, j + 1, choice, subs + [Subsection(own[j].title, Cut(own[j].lines, choice))])
  {
    SliceNext(own, j);
    CutSubsConcat(own[..j], [own[j]], choice);
    CutOne(own[j], choice);
  }

  /** The index keeps, for every title, the one subsection that has it. */
  ghost predicate Indexed(acc: seq<Subsection>, byTitle: map<string, nat>) {
    forall t :: if t in byTitle then byTitle[t] < |acc| && byTitle[t] == LastWith(acc, t) else LastWith(acc, t) == |acc|
  }

  lemma {:induction false} LastWithIs(acc: seq<Subsection>, title: string, j: nat)
    requires j < |acc| && acc[j].title == title && forall i :: j < i < |acc| ==> acc[i].title != title
    ensures LastWith(acc, title) == j
  {
  }

  lemma {:induction false} SameTitles(a: seq<Subsection>, b: seq<Subsection>, title: string)
    requires |a| == |b| && forall i :: 0 <= i < |a| ==> a[i].title == b[i].title
    ensures LastWith(a, title) == LastWith(b, title)
  {
    var j := LastWith(a, title);
    if j < |a| {
      LastWithIs(b, title, j);
    }
  }

  lemma {:induction false} IndexReplaced(acc: seq<Subsection>, byTitle: map<string, nat>, j: nat, sub: Subsection)
    requires Indexed(acc, byTitle) && j < |acc| && sub.title == acc[j].title
    ensures Indexed(acc[j := sub], byTitle)
  {
    forall t ensures LastWith(acc[j := sub], t) == LastWith(acc, t) {
      SameTitles(acc[j := sub], acc, t);
    }
  }

  lemma {:induction false} IndexAdded(acc: seq<Subsection>, byTitle: map<string, nat>, sub: Subsection)
    requires Indexed(acc, byTitle) && sub.title !in byTitle
    ensures Indexed(acc + [sub], byTitle[sub.title := |acc|])
  {
    var more := acc + [sub];
    forall t ensures LastWith(more, t) == if t == sub.title then |acc| else if t in byTitle then byTitle[t] else |more| {
      assert more[..|acc|] == acc;
    }
  }

  method NormalizeSubsections(all: seq<Subsection>) returns (subs: seq<Subsection>)
    ensures subs == NormalSubs(all)
  {
    subs := [];
    var byTitle: map<string, nat> := map[];
    for i := 0 to |all|
      invariant NormalUpTo(all, i, subs) && Indexed(subs, byTitle)
    {
      NormalUpToNext(all, i, subs);
      subs, byTitle := AddSubsection(subs, byTitle, all[i]);
    }
    assert all[..|all|] == all;
  }

  ghost predicate NormalUpTo(all: seq<Subsection>, i: nat, subs: seq<Subsection>)
    requires i <= |all|
  {
    subs == NormalSubs(all[..i])
  }

  lemma {:induction false} NormalUpToNext(all: seq<Subsection>, i: nat, subs: seq<Subsection>)
    requires i < |all| && NormalUpTo(all, i, subs)
    ensures NormalUpTo(all, i + 1, AddNormal(subs, all[i]))
  {
    NormalNext(all[..i], all[i]);
    OneMoreSub(all, i + 1);
  }

  method NormalizeSection(s: Section) returns (r: Section)
    ensures r == NormalSection(s)
  {
    var subs := NormalizeSubsections(s.subsections);
    if s.title == UNRELEASED {
      subs := SortDesc(subs, TitleRank);
    }
    var leading := TrimBlankLines(Texts(s.leading));
    r := Section(s.heading, s.title, Synthetic(leading), subs);
  }

  method AddSubsection(acc0: seq<Subsection>, byTitle0: map<string, nat>, sub: Subsection)
    returns (acc: seq<Subsection>, byTitle: map<string, nat>)
    requires Indexed(acc0, byTitle0)
    ensures acc == AddNormal(acc0, sub) && Indexed(acc, byTitle)
  {
    acc, byTitle := acc0, byTitle0;
    var texts := TrimBlankLines(Texts(sub.lines));
    var lines := Compact(texts);
    if |lines| == 0 {
      return;
    }
    if sub.title in byTitle {
      var j := byTitle[sub.title];
      var merged := Subsection(acc[j].title, Synthetic(Appended(Texts(acc[j].lines), lines)));
      IndexReplaced(acc, byTitle, j, merged);
      acc := acc[j := merged];
    } else {
      var new_ := Subsection(sub.title, Synthetic(lines));
      IndexAdded(acc, byTitle, new_);
      byTitle := byTitle[sub.title := |acc|];
      acc := acc + [new_];
    }
  }

  method NormalizeSections(sections: seq<Section>) returns (r: seq<Section>)
    ensures r == Normalized(sections)
  {
    r := [];
    for i := 0 to |sections|
      invariant |r| == i && forall k :: 0 <= k < i ==> r[k] == NormalSection(sections[k])
    {
      var s := NormalizeSection(sections[i]);
      r := r + [s];
    }
    forall k | 0 <= k < |sections| ensures |Normalized(sections)| == |sections| && Normalized(sections)[k] == r[k] {
      NormalizedAt(sections, k);
    }
    assert sections == [] ==> Normalized(sections) == [];
  }

  method FixSections(sections0: seq<Section>, promotable: set<nat>, history: set<Key>, rank: Rank) returns (sections: seq<Section>)
    requires forall i, j :: 0 <= i < |sections0| && 0 <= j < |sections0[i].subsections| ==> Increasing(sections0[i].subsections[j].lines)
    ensures sections == Fixed(sections0, promotable, history, rank)
  {
    sections := DropUnreleasedDuplicates(sections0, history);
    DroppedSame(sections0, history, StartsIn(promotable));
    DroppedCuttable(sections0, history, StartsIn(promotable));
    sections := PromoteItems(sections, StartsIn(promotable));
    sections := NormalizeSections(sections);
    sections := Sorted(sections, rank);
  }

  lemma {:induction false} DroppedCuttable(sections: seq<Section>, history: set<Key>, choice: Choice)
    requires forall i, j :: 0 <= i < |sections| && 0 <= j < |sections[i].subsections| ==> Increasing(sections[i].subsections[j].lines)
    ensures AllSectionsCuttable(DropDuplicates(sections, history), choice)
  {
    DroppedSame(sections, history, choice);
  }
}
