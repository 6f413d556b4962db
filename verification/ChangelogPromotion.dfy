/** What the fixer does to the releases of a document, as functions, and the items each of them ends up with. */
module ChangelogPromotion {
  import opened ChangelogText
  import opened ChangelogDocument
  import opened ChangelogItems
  import opened ChangelogCut
  import opened StableSort

  const UNRELEASED := "Unreleased"

  function Synthetic(texts: seq<string>): (lines: seq<NumberedLine>)
    ensures Texts(lines) == texts
  {
    seq(|texts|, i requires 0 <= i < |texts| => NumberedLine(texts[i], 0))
  }

  function OwnKeys(sub: Subsection, title: string): seq<Key> {
    if sub.title == title then Keys(Texts(sub.lines)) else []
  }

  /** All items under one title, in order. */
  function KeysUnder(subs: seq<Subsection>, title: string): seq<Key> {
    if subs == [] then [] else OwnKeys(subs[0], title) + KeysUnder(subs[1..], title)
  }

  lemma {:induction false} KeysUnderConcat(a: seq<Subsection>, b: seq<Subsection>, title: string)
    ensures KeysUnder(a + b, title) == KeysUnder(a, title) + KeysUnder(b, title)
    decreases |a|
  {
    if a == [] {
      assert a + b == b;
    } else {
      assert (a + b)[1..] == a[1..] + b;
      KeysUnderConcat(a[1..], b, title);
    }
  }

  lemma {:induction false} KeysUnderOne(sub: Subsection, title: string)
    ensures KeysUnder([sub], title) == if sub.title == title then Keys(Texts(sub.lines)) else []
  {
    assert [sub][1..] == [];
  }

  // ----- taking items out of subsections -----

  function CutSubs(subs: seq<Subsection>, choice: Choice): seq<Subsection> {
    if subs == [] then [] else [Subsection(subs[0].title, Cut(subs[0].lines, choice))] + CutSubs(subs[1..], choice)
  }

  /** The items under a title that are not chosen. */
  function KeysLeft(subs: seq<Subsection>, title: string, choice: Choice): seq<Key> {
    if subs == [] then []
    else (if subs[0].title == title then KeysOf(Others(Items(subs[0].lines), choice)) else []) + KeysLeft(subs[1..], title, choice)
  }

  lemma {:induction false} CutSubsKeys(subs: seq<Subsection>, title: string, choice: Choice)
    ensures KeysUnder(CutSubs(subs, choice), title) == KeysLeft(subs, title, choice)
    decreases |subs|
  {
    if subs != [] {
      CutSubsKeys(subs[1..], title, choice);
      var lines := Cut(subs[0].lines, choice);
      ItemsKeys(lines);
      CutItems(subs[0].lines, choice);
      var first, rest := Subsection(subs[0].title, lines), CutSubs(subs[1..], choice);
      KeysUnderConcat([first], rest, title);
      KeysUnderOne(first, title);
    }
  }

  /** The chosen items with their titles, in order. */
  function ChosenFrom(subs: seq<Subsection>, choice: Choice): seq<(string, Key)> {
    if subs == [] then [] else Titled(subs[0].title, Chosen(Items(subs[0].lines), choice)) + ChosenFrom(subs[1..], choice)
  }

  function Titled(title: string, items: seq<Item>): seq<(string, Key)> {
    seq(|items|, i requires 0 <= i < |items| => (title, items[i].lines))
  }

  /** Every item under a title is left or chosen. */
  lemma {:induction false} LeftOrChosen(subs: seq<Subsection>, title: string, choice: Choice, key: Key)
    requires key in KeysUnder(subs, title)
    ensures key in KeysLeft(subs, title, choice) || (title, key) in ChosenFrom(subs, choice)
    decreases |subs|
  {
    if subs != [] {
      if subs[0].title == title && key in Keys(Texts(subs[0].lines)) {
        ItemsKeys(subs[0].lines);
        OneOrOther(Items(subs[0].lines), choice, key);
        var chosen := Chosen(Items(subs[0].lines), choice);
        if key in KeysOf(chosen) {
          var i :| 0 <= i < |chosen| && chosen[i].lines == key;
          assert Titled(title, chosen)[i] == (title, key);
        }
      } else {
        LeftOrChosen(subs[1..], title, choice, key);
      }
    }
  }

  lemma {:induction false} OneOrOther(items: seq<Item>, choice: Choice, key: Key)
    requires key in KeysOf(items)
    ensures key in KeysOf(Chosen(items, choice)) || key in KeysOf(Others(items, choice))
    decreases |items|
  {
    var i :| 0 <= i < |items| && items[i].lines == key;
    var head := if choice(items[0]) then [items[0]] else [];
    if i > 0 {
      assert KeysOf(items[1..])[i - 1] == key;
      OneOrOther(items[1..], choice, key);
      InTail(items[0], Chosen(items[1..], choice), key);
      InTail(items[0], Others(items[1..], choice), key);
    } else if choice(items[0]) {
      assert KeysOf(Chosen(items, choice))[0] == key;
    } else {
      assert KeysOf(Others(items, choice))[0] == key;
    }
  }

  lemma {:induction false} InTail(first: Item, rest: seq<Item>, key: Key)
    ensures key in KeysOf(rest) ==> key in KeysOf([first] + rest) && key in KeysOf([] + rest)
  {
    KeysOfCons(first, rest);
    assert [] + rest == rest;
  }

  lemma {:induction false} ChosenAreKeys(subs: seq<Subsection>, choice: Choice)
    ensures forall i :: 0 <= i < |ChosenFrom(subs, choice)| ==> IsKey(ChosenFrom(subs, choice)[i].1)
    decreases |subs|
  {
    if subs != [] {
      ChosenAreKeys(subs[1..], choice);
      var items := Items(subs[0].lines);
      ItemsKeys(subs[0].lines);
      KeysAreKeys(Texts(subs[0].lines));
      ChosenAreItems(items, choice);
      var chosen := Chosen(items, choice);
      forall i | 0 <= i < |chosen| ensures IsKey(Titled(subs[0].title, chosen)[i].1) {
        var j :| 0 <= j < |items| && items[j] == chosen[i];
        assert KeysOf(items)[j] == chosen[i].lines;
      }
    }
  }

  // ----- adding items -----

  /** The last subsection with this title. */
  function LastWith(subs: seq<Subsection>, title: string): (j: nat)
    ensures j <= |subs| && (j < |subs| ==> subs[j].title == title)
    ensures j < |subs| ==> forall i :: j < i < |subs| ==> subs[i].title != title
    ensures j == |subs| ==> forall i :: 0 <= i < |subs| ==> subs[i].title != title
  {
    if subs == [] then 0
    else
      var n := |subs| - 1;
      if subs[n].title == title then n
      else
        var j := LastWith(subs[..n], title);
        if j == n then |subs| else j
  }

  /** With the title's last subsection, or a new one at the end. */
  function Ensured(subs: seq<Subsection>, title: string): seq<Subsection> {
    if LastWith(subs, title) < |subs| then subs else subs + [Subsection(title, [])]
  }

  function AppendTo(subs: seq<Subsection>, j: nat, source: seq<string>): seq<Subsection>
    requires j < |subs|
  {
    subs[j := Subsection(subs[j].title, Synthetic(Appended(Texts(subs[j].lines), source)))]
  }

  function AddItem(subs: seq<Subsection>, title: string, key: Key): seq<Subsection> {
    var j, with := LastWith(subs, title), Ensured(subs, title);
    if key in Keys(Texts(with[j].lines)) then with else AppendTo(with, j, key)
  }

  function AddAll(subs: seq<Subsection>, added: seq<(string, Key)>): seq<Subsection> {
    if added == [] then subs
    else
      var n := |added| - 1;
      AddItem(AddAll(subs, added[..n]), added[n].0, added[n].1)
  }

  lemma {:induction false} NoneUnder(subs: seq<Subsection>, title: string)
    requires forall i :: 0 <= i < |subs| ==> subs[i].title != title
    ensures KeysUnder(subs, title) == []
    decreases |subs|
  {
    if subs != [] {
      NoneUnder(subs[1..], title);
    }
  }

  /** Appending to the last subsection of a title appends to the items under it. */
  lemma {:induction false} AppendToKeys(subs: seq<Subsection>, j: nat, source: seq<string>, title: string)
    requires j < |subs| && BulletFirst(TrimBlank(source)) && forall i :: j < i < |subs| ==> subs[i].title != subs[j].title
    ensures KeysUnder(AppendTo(subs, j, source), title)
      == KeysUnder(subs, title) + if title == subs[j].title then Keys(source) else []
  {
    var now := Subsection(subs[j].title, Synthetic(Appended(Texts(subs[j].lines), source)));
    AppendedKeys(Texts(subs[j].lines), source);
    ReplaceLast(subs, j, now, Keys(source), title);
  }

  lemma {:induction false} ReplaceLast(subs: seq<Subsection>, j: nat, now: Subsection, more: seq<Key>, title: string)
    requires j < |subs| && forall i :: j < i < |subs| ==> subs[i].title != subs[j].title
    requires now.title == subs[j].title && Keys(Texts(now.lines)) == Keys(Texts(subs[j].lines)) + more
    ensures KeysUnder(subs[j := now], title) == KeysUnder(subs, title) + if title == now.title then more else []
  {
    var before, after := subs[..j], subs[j + 1..];
    var extra := if title == now.title then more else [];
    OwnKeysMore(subs[j], now, more, title);
    Around(subs, j, now);
    if title == subs[j].title {
      NoneUnder(after, title);
    }
    calc {
      KeysUnder(subs[j := now], title);
    == { ThreeParts(before, now, after, title); }
      KeysUnder(before, title) + OwnKeys(now, title) + KeysUnder(after, title);
    == { EndsIn(KeysUnder(before, title), OwnKeys(subs[j], title), KeysUnder(after, title), extra); }
      KeysUnder(before, title) + OwnKeys(subs[j], title) + KeysUnder(after, title) + extra;
    == { ThreeParts(before, subs[j], after, title); }
      KeysUnder(subs, title) + extra;
    }
  }

  lemma {:induction false} OwnKeysMore(was: Subsection, now: Subsection, more: seq<Key>, title: string)
    requires now.title == was.title && Keys(Texts(now.lines)) == Keys(Texts(was.lines)) + more
    ensures OwnKeys(now, title) == OwnKeys(was, title) + if title == now.title then more else []
  {
  }

  lemma {:induction false} Around<T>(s: seq<T>, j: nat, x: T)
    requires j < |s|
    ensures s == s[..j] + [s[j]] + s[j + 1..] && s[j := x] == s[..j] + [x] + s[j + 1..]
  {
  }

  lemma {:induction false} EndsIn<T>(a: seq<T>, own: seq<T>, after: seq<T>, more: seq<T>)
    requires more != [] ==> after == []
    ensures a + (own + more) + after == a + own + after + more
  {
  }

  lemma {:induction false} ThreeParts(before: seq<Subsection>, sub: Subsection, after: seq<Subsection>, title: string)
    ensures KeysUnder(before + [sub] + after, title) == KeysUnder(before, title) + OwnKeys(sub, title) + KeysUnder(after, title)
  {
    KeysUnderConcat(before + [sub], after, title);
    KeysUnderConcat(before, [sub], title);
    KeysUnderOne(sub, title);
  }

  lemma {:induction false} EnsuredKeys(subs: seq<Subsection>, title: string, t: string)
    ensures KeysUnder(Ensured(subs, title), t) == KeysUnder(subs, t)
  {
    if LastWith(subs, title) == |subs| {
      KeysUnderConcat(subs, [Subsection(title, [])], t);
      KeysUnderOne(Subsection(title, []), t);
      assert Texts(Subsection(title, []).lines) == [];
    }
  }

  lemma {:induction false} KeysWithin(subs: seq<Subsection>, j: nat)
    requires j < |subs|
    ensures forall key :: key in Keys(Texts(subs[j].lines)) ==> key in KeysUnder(subs, subs[j].title)
  {
    assert subs == subs[..j] + [subs[j]] + subs[j + 1..];
    ThreeParts(subs[..j], subs[j], subs[j + 1..], subs[j].title);
  }

  /** An added item is there afterwards, and every other item is where it was. */
  lemma {:induction false} AddItemKeys(subs: seq<Subsection>, title: string, key: Key, t: string)
    requires IsKey(key)
    ensures OneMore(KeysUnder(subs, t), KeysUnder(AddItem(subs, title, key), t), key)
    ensures t != title ==> KeysUnder(AddItem(subs, title, key), t) == KeysUnder(subs, t)
    ensures key in KeysUnder(AddItem(subs, title, key), title)
  {
    KeyStands(key);
    AddItemKeysAt(subs, title, key, t);
    AddItemKeysAt(subs, title, key, title);
  }

  predicate OneMore(before: seq<Key>, after: seq<Key>, key: Key) {
    after == before || after == before + [key]
  }

  predicate Stands(key: Key) {
    Keys(key) == [key] && BulletFirst(TrimBlank(key))
  }

  lemma {:induction false} KeyStands(key: Key)
    requires IsKey(key)
    ensures Stands(key)
  {
    KeyIsTrimmed(key);
    OneKey(key);
  }

  lemma {:induction false} AddItemKeysAt(subs: seq<Subsection>, title: string, key: Key, t: string)
    requires Stands(key)
    ensures OneMore(KeysUnder(subs, t), KeysUnder(AddItem(subs, title, key), t), key)
    ensures t != title ==> KeysUnder(AddItem(subs, title, key), t) == KeysUnder(subs, t)
    ensures t == title ==> key in KeysUnder(AddItem(subs, title, key), t)
  {
    var j, with := LastWith(subs, title), Ensured(subs, title);
    EnsuredKeys(subs, title, t);
    assert with[j].title == title;
    if key in Keys(Texts(with[j].lines)) {
      KeysWithin(with, j);
    } else {
      AppendToKeys(with, j, key, t);
      assert t != title ==> KeysUnder(with, t) + [] == KeysUnder(with, t);
    }
  }

  lemma {:induction false} KeyIsTrimmed(key: Key)
    requires IsKey(key)
    ensures TrimBlank(key) == key && BulletFirst(key)
  {
    BulletIsNotBlank(key[0]);
    TrimTrimmed(key);
  }

  predicate AreKeys(added: seq<(string, Key)>) {
    forall i :: 0 <= i < |added| ==> IsKey(added[i].1)
  }

  /** The items from before stay in front, in order; what follows them was added under the same title. */
  lemma {:induction false} AddAllKeys(subs: seq<Subsection>, added: seq<(string, Key)>, t: string)
    requires AreKeys(added)
    ensures KeysUnder(subs, t) <= KeysUnder(AddAll(subs, added), t)
    ensures forall key :: key in KeysUnder(AddAll(subs, added), t)[|KeysUnder(subs, t)|..] ==> (t, key) in added
    decreases |added|
  {
    if added != [] {
      var n := |added| - 1;
      AddAllKeys(subs, added[..n], t);
      AddItemKeys(AddAll(subs, added[..n]), added[n].0, added[n].1, t);
      NewOnes(KeysUnder(subs, t), KeysUnder(AddAll(subs, added[..n]), t), KeysUnder(AddAll(subs, added), t), added, t);
    }
  }

  lemma {:induction false} NewOnes(old0: seq<Key>, before: seq<Key>, after: seq<Key>, added: seq<(string, Key)>, t: string)
    requires added != [] && old0 <= before
    requires forall key :: key in before[|old0|..] ==> (t, key) in added[..|added| - 1]
    requires after == before || (added[|added| - 1].0 == t && after == before + [added[|added| - 1].1])
    ensures old0 <= after && forall key :: key in after[|old0|..] ==> (t, key) in added
  {
    assert after != before ==> after[|old0|..] == before[|old0|..] + [added[|added| - 1].1];
  }

  lemma {:induction false} AddedAreThere(subs: seq<Subsection>, added: seq<(string, Key)>, i: nat)
    requires AreKeys(added) && i < |added|
    ensures added[i].1 in KeysUnder(AddAll(subs, added), added[i].0)
    decreases |added|
  {
    var n := |added| - 1;
    var before := AddAll(subs, added[..n]);
    if i == n {
      AddItemKeys(before, added[n].0, added[n].1, added[n].0);
    } else {
      AddedAreThere(subs, added[..n], i);
      AddItemKeys(before, added[n].0, added[n].1, added[i].0);
      assert added[..n][i] == added[i];
    }
  }

  // ----- normalizing -----

  function AddNormal(acc: seq<Subsection>, sub: Subsection): seq<Subsection> {
    var t := Compact(TrimBlank(Texts(sub.lines)));
    var j := LastWith(acc, sub.title);
    if t == [] then acc
    else if j < |acc| then AppendTo(acc, j, t)
    else acc + [Subsection(sub.title, Synthetic(t))]
  }

  /** Compacted, without empty subsections, and with those of one title merged into the first. */
  function NormalSubs(subs: seq<Subsection>): seq<Subsection> {
    if subs == [] then [] else AddNormal(NormalSubs(subs[..|subs| - 1]), subs[|subs| - 1])
  }

  /** The text of the subsection begins with a bullet, if there is any. */
  predicate StartsWithItem(sub: Subsection) {
    BulletFirst(TrimBlank(Texts(sub.lines)))
  }

  predicate AllStartWithItems(subs: seq<Subsection>) {
    forall i :: 0 <= i < |subs| ==> StartsWithItem(subs[i])
  }

  /** The compacted text of a subsection has its items. */
  lemma {:induction false} CompactSub(sub: Subsection)
    requires StartsWithItem(sub)
    ensures var t := Compact(TrimBlank(Texts(sub.lines)));
      Keys(t) == Keys(Texts(sub.lines)) && BulletFirst(t) && TrimBlank(t) == t
  {
    var texts := Texts(sub.lines);
    TrimBlankIsTrimmed(texts);
    TrimTrimmed(TrimBlank(texts));
    CompactKeys(TrimBlank(texts));
    KeysTrimmed(texts);
    TrimTrimmed(Compact(TrimBlank(texts)));
  }

  lemma {:induction false} AddNormalKeys(acc: seq<Subsection>, sub: Subsection, title: string)
    requires StartsWithItem(sub)
    ensures KeysUnder(AddNormal(acc, sub), title) == KeysUnder(acc, title) + KeysUnder([sub], title)
  {
    CompactSub(sub);
    KeysUnderOne(sub, title);
    AddNormalIs(acc, sub, Compact(TrimBlank(Texts(sub.lines))));
    AddText(acc, sub.title, Compact(TrimBlank(Texts(sub.lines))), title);
  }

  function WithText(acc: seq<Subsection>, own: string, t: seq<string>): seq<Subsection> {
    var j := LastWith(acc, own);
    if t == [] then acc else if j < |acc| then AppendTo(acc, j, t) else acc + [Subsection(own, Synthetic(t))]
  }

  lemma {:induction false} AddNormalIs(acc: seq<Subsection>, sub: Subsection, t: seq<string>)
    requires t == Compact(TrimBlank(Texts(sub.lines)))
    ensures AddNormal(acc, sub) == WithText(acc, sub.title, t)
  {
  }

  lemma {:induction false} AddText(acc: seq<Subsection>, own: string, t: seq<string>, title: string)
    requires BulletFirst(t) && TrimBlank(t) == t
    ensures KeysUnder(WithText(acc, own, t), title) == KeysUnder(acc, title) + if own == title then Keys(t) else []
  {
    var j := LastWith(acc, own);
    if t == [] {
      NoKeys(t);
    } else if j < |acc| {
      AppendToKeys(acc, j, t, title);
    } else {
      NewText(acc, own, t, title);
    }
  }

  lemma {:induction false} NewText(acc: seq<Subsection>, own: string, t: seq<string>, title: string)
    ensures KeysUnder(acc + [Subsection(own, Synthetic(t))], title) == KeysUnder(acc, title) + if own == title then Keys(t) else []
  {
    KeysUnderConcat(acc, [Subsection(own, Synthetic(t))], title);
    KeysUnderOne(Subsection(own, Synthetic(t)), title);
  }

  lemma {:induction false} NormalNext(subs: seq<Subsection>, sub: Subsection)
    ensures NormalSubs(subs + [sub]) == AddNormal(NormalSubs(subs), sub)
  {
    assert (subs + [sub])[..|subs|] == subs;
  }

  /** Normalizing keeps the items under every title, in order. */
  lemma {:induction false} NormalKeys(subs: seq<Subsection>, title: string)
    requires AllStartWithItems(subs)
    ensures KeysUnder(NormalSubs(subs), title) == KeysUnder(subs, title)
  {
    NormalKeysUpTo(subs, |subs|, title);
    assert subs[..|subs|] == subs;
  }

  lemma {:induction false} NormalKeysUpTo(subs: seq<Subsection>, n: nat, title: string)
    requires AllStartWithItems(subs) && n <= |subs|
    ensures KeysUnder(NormalSubs(subs[..n]), title) == KeysUnder(subs[..n], title)
    decreases n
  {
    if n == 0 {
      assert subs[..0] == [];
    } else {
      NormalKeysUpTo(subs, n - 1, title);
      NormalKeysNext(subs[..n - 1], subs[n - 1], title);
      OneMoreSub(subs, n);
    }
  }

  lemma {:induction false} OneMoreSub(subs: seq<Subsection>, n: nat)
    requires 0 < n <= |subs|
    ensures subs[..n] == subs[..n - 1] + [subs[n - 1]]
  {
  }

  lemma {:induction false} NormalKeysNext(subs: seq<Subsection>, sub: Subsection, title: string)
    requires StartsWithItem(sub) && KeysUnder(NormalSubs(subs), title) == KeysUnder(subs, title)
    ensures KeysUnder(NormalSubs(subs + [sub]), title) == KeysUnder(subs + [sub], title)
  {
    NormalNext(subs, sub);
    AddNormalKeys(NormalSubs(subs), sub, title);
    KeysUnderConcat(subs, [sub], title);
  }

  const ORDERED_TITLES := ["Breaking Changes", "Added", "Changed", "Fixed", "Removed"]

  function IndexOf(titles: seq<string>, title: string): nat {
    if titles == [] || titles[0] == title then 0 else 1 + IndexOf(titles[1..], title)
  }

  /** `titleOrder`, with the sign turned because the sort is descending. */
  function TitleRank(sub: Subsection): int {
    -(IndexOf(ORDERED_TITLES, sub.title) as int)
  }

  function NormalSection(s: Section): Section {
    var subs := NormalSubs(s.subsections);
    Section(s.heading, s.title, Synthetic(TrimBlank(Texts(s.leading))),
            if s.title == UNRELEASED then SortDesc(subs, TitleRank) else subs)
  }

  /** Sorting by title keeps the items under each title, in order. */
  lemma {:induction false} RankKeys(subs: seq<Subsection>, title: string)
    ensures KeysUnder(OfKey(subs, TitleRank, TitleRank(Subsection(title, []))), title) == KeysUnder(subs, title)
    decreases |subs|
  {
    var k := TitleRank(Subsection(title, []));
    if subs != [] {
      RankKeys(subs[1..], title);
      var rest := OfKey(subs[1..], TitleRank, k);
      if TitleRank(subs[0]) == k {
        KeysUnderConcat([subs[0]], rest, title);
        KeysUnderOne(subs[0], title);
      } else {
        assert OfKey(subs, TitleRank, k) == rest;
      }
    }
  }

  lemma {:induction false} SortedKeys(subs: seq<Subsection>, title: string)
    ensures KeysUnder(SortDesc(subs, TitleRank), title) == KeysUnder(subs, title)
  {
    RankKeys(subs, title);
    RankKeys(SortDesc(subs, TitleRank), title);
    SortIsStable(subs, TitleRank, TitleRank(Subsection(title, [])));
  }

  lemma {:induction false} NormalSectionKeys(s: Section, title: string)
    requires AllStartWithItems(s.subsections)
    ensures KeysUnder(NormalSection(s).subsections, title) == KeysUnder(s.subsections, title)
  {
    NormalKeys(s.subsections, title);
    SortedKeys(NormalSubs(s.subsections), title);
  }

  // ----- beginning with a bullet -----

  /** Blank lines, then a bullet. */
  predicate NoPreamble(texts: seq<string>) {
    texts == [] || IsBullet(texts[0]) || (IsBlank(texts[0]) && NoPreamble(texts[1..]))
  }

  lemma {:induction false} PreambleTrimmed(texts: seq<string>)
    ensures NoPreamble(texts) <==> BulletFirst(TrimFront(texts))
    decreases |texts|
  {
    if texts != [] {
      BulletIsNotBlank(texts[0]);
      if IsBlank(texts[0]) {
        PreambleTrimmed(texts[1..]);
      }
    }
  }

  lemma {:induction false} NoPreambleIsStart(texts: seq<string>)
    ensures NoPreamble(texts) <==> BulletFirst(TrimBlank(texts))
  {
    PreambleTrimmed(texts);
    var front := TrimFront(texts);
    if front != [] {
      TrimBackKeeps(front, 0);
      assert TrimBlank(texts)[0] == front[0];
    }
  }

  /** Taking items out leaves no text in front of the first bullet. */
  lemma {:induction false} CutNoPreamble(lines: seq<NumberedLine>, choice: Choice)
    requires NoPreamble(Texts(lines))
    ensures NoPreamble(Texts(Cut(lines, choice)))
    decreases |lines|
  {
    if lines != [] {
      assert Texts(lines)[0] == lines[0].text && Texts(lines)[1..] == Texts(lines[1..]);
      if IsBullet(lines[0].text) {
        CutFirst(lines, choice);
      } else {
        CutNoPreamble(lines[1..], choice);
        var rest := Cut(lines[1..], choice);
        assert Texts([lines[0]] + rest)[1..] == Texts(rest);
      }
    }
  }

  lemma {:induction false} CutStarts(sub: Subsection, choice: Choice)
    requires StartsWithItem(sub)
    ensures StartsWithItem(Subsection(sub.title, Cut(sub.lines, choice)))
  {
    NoPreambleIsStart(Texts(sub.lines));
    CutNoPreamble(sub.lines, choice);
    NoPreambleIsStart(Texts(Cut(sub.lines, choice)));
  }

  lemma {:induction false} CutSubsAt(subs: seq<Subsection>, choice: Choice, i: nat)
    requires i < |subs|
    ensures |CutSubs(subs, choice)| == |subs|
    ensures CutSubs(subs, choice)[i] == Subsection(subs[i].title, Cut(subs[i].lines, choice))
    decreases |subs|
  {
    if |subs| > 1 {
      CutSubsAt(subs[1..], choice, if i == 0 then 0 else i - 1);
    }
  }

  lemma {:induction false} CutSubsStart(subs: seq<Subsection>, choice: Choice)
    requires AllStartWithItems(subs)
    ensures AllStartWithItems(CutSubs(subs, choice))
  {
    forall i | 0 <= i < |CutSubs(subs, choice)| ensures StartsWithItem(CutSubs(subs, choice)[i]) {
      if subs != [] {
        CutSubsAt(subs, choice, 0);
        CutSubsAt(subs, choice, i);
        CutStarts(subs[i], choice);
      }
    }
  }

  lemma {:induction false} EmptyStarts(title: string)
    ensures StartsWithItem(Subsection(title, []))
  {
    assert Texts([]) == [];
  }

  lemma {:induction false} AppendStarts(sub: Subsection, key: Key)
    requires StartsWithItem(sub) && IsKey(key)
    ensures StartsWithItem(Subsection(sub.title, Synthetic(Appended(Texts(sub.lines), key))))
  {
    KeyIsTrimmed(key);
    AppendedFirst(Texts(sub.lines), key);
  }

  lemma {:induction false} AddItemStarts(subs: seq<Subsection>, title: string, key: Key)
    requires AllStartWithItems(subs) && IsKey(key)
    ensures AllStartWithItems(AddItem(subs, title, key))
  {
    var j, with := LastWith(subs, title), Ensured(subs, title);
    EnsuredStarts(subs, title);
    AppendStarts(with[j], key);
    ReplacedStarts(with, j, Subsection(with[j].title, Synthetic(Appended(Texts(with[j].lines), key))));
  }

  lemma {:induction false} EnsuredStarts(subs: seq<Subsection>, title: string)
    requires AllStartWithItems(subs)
    ensures AllStartWithItems(Ensured(subs, title))
  {
    EmptyStarts(title);
    OneMoreStarts(subs, Subsection(title, []));
  }

  lemma {:induction false} OneMoreStarts(subs: seq<Subsection>, sub: Subsection)
    requires AllStartWithItems(subs) && StartsWithItem(sub)
    ensures AllStartWithItems(subs + [sub])
  {
    forall i | 0 <= i < |subs + [sub]| ensures StartsWithItem((subs + [sub])[i]) {
      assert (subs + [sub])[i] == if i < |subs| then subs[i] else sub;
    }
  }

  lemma {:induction false} ReplacedStarts(subs: seq<Subsection>, j: nat, sub: Subsection)
    requires AllStartWithItems(subs) && j < |subs| && StartsWithItem(sub)
    ensures AllStartWithItems(subs[j := sub])
  {
  }

  lemma {:induction false} AddAllStarts(subs: seq<Subsection>, added: seq<(string, Key)>)
    requires AllStartWithItems(subs) && AreKeys(added)
    ensures AllStartWithItems(AddAll(subs, added))
    decreases |added|
  {
    if added != [] {
      AddAllStarts(subs, added[..|added| - 1]);
      AddItemStarts(AddAll(subs, added[..|added| - 1]), added[|added| - 1].0, added[|added| - 1].1);
    }
  }
}
