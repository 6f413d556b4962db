/** Where in the text items stand: the bullet that begins them, its line, and the line behind their last. */
module ChangelogPlaces {
  import opened ChangelogText
  import opened ChangelogLines
  import opened ChangelogDocument
  import opened ChangelogItems
  import opened ChangelogCut
  import opened ChangelogContent

  // ----- items by positions -----

  /** Increasing, and exactly the positions of the bullets. */
  ghost predicate BulletsAt(lines: seq<NumberedLine>, ix: seq<nat>) {
    && (forall a, b :: 0 <= a < b < |ix| ==> ix[a] < ix[b])
    && (forall i: nat :: i in ix <==> i < |lines| && IsBullet(lines[i].text))
  }

  /** Where the m-th of these items ends: at the next bullet, or with the lines. */
  function EndOf(lines: seq<NumberedLine>, ix: seq<nat>, m: nat): nat
    requires m < |ix|
  {
    if m + 1 < |ix| then ix[m + 1] else |lines|
  }

  /** The item reaches from its bullet up to there. */
  ghost predicate ItemFrom(lines: seq<NumberedLine>, ix: seq<nat>, m: nat, item: Item)
    requires m < |ix|
  {
    ItemSpan(lines, ix[m], EndOf(lines, ix, m), item)
  }

  ghost predicate ItemSpan(lines: seq<NumberedLine>, start: nat, end: nat, item: Item) {
    start < end <= |lines| && item == ItemOf(lines[start..end])
  }

  ghost predicate ItemsFrom(lines: seq<NumberedLine>, ix: seq<nat>, items: seq<Item>) {
    |items| == |ix| && forall m :: 0 <= m < |ix| ==> ItemFrom(lines, ix, m, items[m])
  }

  function Shifted(ix: seq<nat>, k: nat): (r: seq<nat>)
    ensures |r| == |ix| && forall m :: 0 <= m < |ix| ==> r[m] == ix[m] + k
  {
    seq(|ix|, m requires 0 <= m < |ix| => ix[m] + k)
  }

  lemma {:induction false} ShiftedIn(ix: seq<nat>, k: nat, i: nat)
    ensures i in Shifted(ix, k) <==> i >= k && i - k in ix
  {
    if i in Shifted(ix, k) {
      var m :| 0 <= m < |ix| && Shifted(ix, k)[m] == i;
      assert ix[m] == i - k;
    }
    if i >= k && i - k in ix {
      var m :| 0 <= m < |ix| && ix[m] == i - k;
      assert Shifted(ix, k)[m] == i;
    }
  }

  lemma {:induction false} BulletsShift(lines: seq<NumberedLine>, k: nat, ix: seq<nat>)
    requires k <= |lines| && BulletsAt(lines[k..], ix)
    requires forall i :: 0 <= i < k ==> !IsBullet(lines[i].text)
    ensures BulletsAt(lines, Shifted(ix, k))
  {
    forall i: nat ensures i in Shifted(ix, k) <==> i < |lines| && IsBullet(lines[i].text) {
      ShiftedIn(ix, k, i);
      assert k <= i < |lines| ==> lines[k..][i - k] == lines[i];
    }
  }

  lemma {:induction false} BulletThenShift(lines: seq<NumberedLine>, k: nat, ix: seq<nat>)
    requires 0 < k <= |lines| && BulletsAt(lines[k..], ix) && IsBullet(lines[0].text)
    requires forall i :: 0 < i < k ==> !IsBullet(lines[i].text)
    ensures BulletsAt(lines, [0] + Shifted(ix, k))
  {
    var all := [0] + Shifted(ix, k);
    forall i: nat ensures i in all <==> i < |lines| && IsBullet(lines[i].text) {
      ShiftedIn(ix, k, i);
      assert i in all <==> i == 0 || i in Shifted(ix, k);
      assert k <= i < |lines| ==> lines[k..][i - k] == lines[i];
    }
  }

  lemma {:induction false} EndShifts(lines: seq<NumberedLine>, k: nat, ix: seq<nat>, m: nat, all: seq<nat>, n: nat)
    requires k <= |lines| && m < |ix| && n < |all| && |all| - n == |ix| - m
    requires m + 1 < |ix| ==> all[n + 1] == ix[m + 1] + k
    ensures EndOf(lines, all, n) == EndOf(lines[k..], ix, m) + k
  {
  }

  lemma {:induction false} ItemShifts(lines: seq<NumberedLine>, k: nat, ix: seq<nat>, m: nat, item: Item, all: seq<nat>, n: nat)
    requires k <= |lines| && m < |ix| && n < |all| && |all| - n == |ix| - m && ItemFrom(lines[k..], ix, m, item)
    requires all[n] == ix[m] + k && (m + 1 < |ix| ==> all[n + 1] == ix[m + 1] + k)
    ensures ItemFrom(lines, all, n, item)
  {
    var rest := lines[k..];
    EndShifts(lines, k, ix, m, all, n);
    SpanShifts(lines, rest, k, ix[m], EndOf(rest, ix, m), all[n], EndOf(lines, all, n), item);
  }

  lemma {:induction false} SpanShifts(lines: seq<NumberedLine>, rest: seq<NumberedLine>, k: nat, start: nat, end: nat, a: nat, b: nat, item: Item)
    requires k <= |lines| && rest == lines[k..] && ItemSpan(rest, start, end, item) && a == start + k && b == end + k
    ensures ItemSpan(lines, a, b, item)
  {
    SliceOfTail(lines, k, start, end);
  }

  lemma {:induction false} SliceOfTail(lines: seq<NumberedLine>, k: nat, start: nat, end: nat)
    requires start < end && end + k <= |lines|
    ensures lines[k..][start..end] == lines[start + k..end + k]
  {
  }

  /** Lines that begin with no bullet have the items of the others. */
  lemma {:induction false} ItemsBehind(lines: seq<NumberedLine>, rest: seq<nat>)
    requires lines != [] && !IsBullet(lines[0].text) && BulletsAt(lines[1..], rest) && ItemsFrom(lines[1..], rest, Items(lines[1..]))
    ensures BulletsAt(lines, Shifted(rest, 1)) && ItemsFrom(lines, Shifted(rest, 1), Items(lines))
  {
    var ix, items := Shifted(rest, 1), Items(lines[1..]);
    BulletsShift(lines, 1, rest);
    forall m | 0 <= m < |ix| ensures ItemFrom(lines, ix, m, items[m]) {
      ItemShifts(lines, 1, rest, m, items[m], ix, m);
    }
  }

  lemma {:induction false} NextBulletIsNext(lines: seq<NumberedLine>, k: nat)
    requires lines != [] && k == NextBullet(Texts(lines), 1)
    ensures forall i :: 0 < i < k ==> !IsBullet(lines[i].text)
    ensures k < |lines| ==> IsBullet(lines[k].text)
  {
    forall i | 0 < i < |lines| ensures Texts(lines)[i] == lines[i].text {
    }
  }

  lemma {:induction false} OthersFrom(lines: seq<NumberedLine>, k: nat, rest: seq<nat>, items: seq<Item>, ix: seq<nat>, m: nat)
    requires k <= |lines| && ItemsFrom(lines[k..], rest, items) && ix == [0] + Shifted(rest, k) && 0 < m < |ix|
    ensures ItemFrom(lines, ix, m, items[m - 1])
  {
    ItemShifts(lines, k, rest, m - 1, items[m - 1], ix, m);
  }

  /** Behind the first item, up to position `k`, stand the others. */
  lemma {:induction false} ItemThenOthers(lines: seq<NumberedLine>, k: nat, rest: seq<nat>, items: seq<Item>, ix: seq<nat>)
    requires lines != [] && IsBullet(lines[0].text) && 0 < k <= |lines|
    requires (forall i :: 0 < i < k ==> !IsBullet(lines[i].text)) && (k < |lines| ==> IsBullet(lines[k].text))
    requires BulletsAt(lines[k..], rest) && ItemsFrom(lines[k..], rest, items) && ix == [0] + Shifted(rest, k)
    requires |rest| == |Items(lines[k..])|
    ensures BulletsAt(lines, ix) && ItemsFrom(lines, ix, [ItemOf(lines[..k])] + items)
  {
    var all := [ItemOf(lines[..k])] + items;
    BulletThenShift(lines, k, rest);
    FirstItemEnds(lines, k, rest, ix);
    forall m | 0 < m < |ix| ensures ItemFrom(lines, ix, m, all[m]) {
      OthersFrom(lines, k, rest, items, ix, m);
    }
  }

  /** The items of any lines, one for each bullet, each reaching up to the next one. */
  lemma {:induction false} ItemsAreFrom(lines: seq<NumberedLine>) returns (ix: seq<nat>)
    ensures BulletsAt(lines, ix) && ItemsFrom(lines, ix, Items(lines))
    decreases |lines|
  {
    if lines == [] {
      ix := [];
    } else if !IsBullet(lines[0].text) {
      var rest := ItemsAreFrom(lines[1..]);
      ix := Shifted(rest, 1);
      ItemsBehind(lines, rest);
    } else {
      var k := NextBullet(Texts(lines), 1);
      var rest := ItemsAreFrom(lines[k..]);
      ix := [0] + Shifted(rest, k);
      NextBulletIsNext(lines, k);
      ItemThenOthers(lines, k, rest, Items(lines[k..]), ix);
    }
  }

  lemma {:induction false} FirstItemEnds(lines: seq<NumberedLine>, k: nat, rest: seq<nat>, ix: seq<nat>)
    requires lines != [] && 0 < k <= |lines| && (k < |lines| ==> IsBullet(lines[k].text))
    requires BulletsAt(lines[k..], rest) && |rest| == |Items(lines[k..])| && ix == [0] + Shifted(rest, k)
    ensures ItemFrom(lines, ix, 0, ItemOf(lines[..k]))
  {
    NextIsEnd(lines, k, rest, ix);
    assert lines[0..k] == lines[..k];
  }

  lemma {:induction false} NextIsEnd(lines: seq<NumberedLine>, k: nat, rest: seq<nat>, ix: seq<nat>)
    requires 0 < k <= |lines| && (k < |lines| ==> IsBullet(lines[k].text))
    requires BulletsAt(lines[k..], rest) && |rest| == |Items(lines[k..])| && ix == [0] + Shifted(rest, k)
    ensures ix[0] == 0 && EndOf(lines, ix, 0) == k
  {
    if k < |lines| {
      assert lines[k..][0] == lines[k] && 0 in rest;
      var m :| 0 <= m < |rest| && rest[m] == 0;
      assert rest[0] <= rest[m];
      assert ix[1] == k;
    } else {
      assert lines[k..] == [];
    }
  }

  // ----- lines of the text -----

  /** These lines are lines of the text under their own numbers. */
  ghost predicate FromText(texts: seq<string>, lines: seq<NumberedLine>) {
    forall i :: 0 <= i < |lines| ==> 1 <= lines[i].lineNumber <= |texts| && texts[lines[i].lineNumber - 1] == lines[i].text
  }

  ghost predicate SubsFromText(texts: seq<string>, subs: seq<Subsection>) {
    forall j :: 0 <= j < |subs| ==> FromText(texts, subs[j].lines)
  }

  ghost predicate SectionsFromText(texts: seq<string>, sections: seq<Section>) {
    forall i :: 0 <= i < |sections| ==> FromText(texts, sections[i].leading) && SubsFromText(texts, sections[i].subsections)
  }

  lemma {:induction false} WholeTail(lines: seq<NumberedLine>, k: nat)
    requires k <= |lines|
    ensures lines[k..|lines|] == lines[k..]
  {
  }

  lemma {:induction false} SliceFromText(texts: seq<string>, lines: seq<NumberedLine>, a: nat, b: nat)
    requires FromText(texts, lines) && a <= b <= |lines|
    ensures FromText(texts, lines[a..b])
  {
  }

  lemma {:induction false} NumberFromText(texts: seq<string>)
    ensures FromText(texts, Number(texts))
  {
  }

  lemma {:induction false} SubsFromTextCons(texts: seq<string>, first: Subsection, rest: seq<Subsection>)
    requires FromText(texts, first.lines) && SubsFromText(texts, rest)
    ensures SubsFromText(texts, [first] + rest)
  {
  }

  lemma {:induction false} SubsectionsFromText(texts: seq<string>, lines: seq<NumberedLine>)
    requires FromText(texts, lines) && (lines != [] ==> IsSubHeading(lines[0].text))
    ensures SubsFromText(texts, Subsections(lines))
    decreases |lines|
  {
    if lines != [] {
      var k, n := NextSub(lines, 1), |lines|;
      SliceFromText(texts, lines, 1, k);
      SliceFromText(texts, lines, k, n);
      WholeTail(lines, k);
      SubsectionsFromText(texts, lines[k..]);
      SubsFromTextCons(texts, Subsection(SubTitle(lines[0].text), lines[1..k]), Subsections(lines[k..]));
      SubsectionsCons(lines);
    }
  }

  lemma {:induction false} SectionFromText(texts: seq<string>, heading: string, body: seq<NumberedLine>)
    requires FromText(texts, body) && IsReleaseHeading(heading)
    ensures FromText(texts, SectionOf(heading, body).leading) && SubsFromText(texts, SectionOf(heading, body).subsections)
  {
    var k, n := NextSub(body, 0), |body|;
    SliceFromText(texts, body, 0, k);
    SliceFromText(texts, body, k, n);
    WholeTail(body, k);
    assert body[0..k] == body[..k];
    SubsectionsFromText(texts, body[k..]);
  }

  lemma {:induction false} SectionsFromTextCons(texts: seq<string>, first: Section, rest: seq<Section>)
    requires FromText(texts, first.leading) && SubsFromText(texts, first.subsections) && SectionsFromText(texts, rest)
    ensures SectionsFromText(texts, [first] + rest)
  {
  }

  lemma {:induction false} ReleasesFromText(texts: seq<string>, lines: seq<NumberedLine>)
    requires FromText(texts, lines) && (lines != [] ==> IsReleaseHeading(lines[0].text))
    ensures SectionsFromText(texts, Sections(lines))
    decreases |lines|
  {
    if lines != [] {
      var k := NextRelease(lines, 1);
      var body, rest := lines[1..k], lines[k..];
      SliceFromText(texts, lines, 1, k);
      SliceFromText(texts, lines, k, |lines|);
      WholeTail(lines, k);
      ReleasesFromText(texts, rest);
      SectionFromText(texts, lines[0].text, body);
      SectionsCons(lines);
      SectionsFromTextCons(texts, SectionOf(lines[0].text, body), Sections(rest));
    }
  }

  /** Every line of a parsed document is the line of the text that its number says. */
  lemma {:induction false} ParsedFromText(content: string)
    ensures FromText(SplitContent(content), ParsedText(content).prefix)
    ensures SectionsFromText(SplitContent(content), ParsedText(content).sections)
  {
    var texts := SplitContent(content);
    var lines := Number(texts);
    var k, n := NextRelease(lines, 0), |lines|;
    NumberFromText(texts);
    SliceFromText(texts, lines, 0, k);
    SliceFromText(texts, lines, k, n);
    WholeTail(lines, k);
    assert lines[0..k] == lines[..k];
    ReleasesFromText(texts, lines[k..]);
  }

  /** The item that begins with line `n` of the text. */
  ghost predicate ItemAt(lines: seq<NumberedLine>, n: nat, key: Key) {
    exists start: nat, end: nat :: BulletUpTo(lines, start, end) && lines[start].lineNumber == n && key == TrimBlank(Texts(lines[start..end]))
  }

  /** A bullet, and the lines up to the next one. */
  ghost predicate BulletUpTo(lines: seq<NumberedLine>, start: nat, end: nat) {
    && start < end <= |lines| && IsBullet(lines[start].text)
    && (forall i :: start < i < end ==> !IsBullet(lines[i].text))
    && (end < |lines| ==> IsBullet(lines[end].text))
  }

  lemma {:induction false} NotBetween(ix: seq<nat>, m: nat, i: nat)
    requires forall a, b :: 0 <= a < b < |ix| ==> ix[a] < ix[b]
    requires m < |ix| && ix[m] < i && (m + 1 < |ix| ==> i < ix[m + 1])
    ensures i !in ix
  {
    forall q | 0 <= q < |ix| ensures ix[q] != i {
      if q <= m {
        assert q == m || ix[q] < ix[m];
      } else {
        assert q == m + 1 || ix[m + 1] < ix[q];
      }
    }
  }

  lemma {:induction false} ItemEndsAt(lines: seq<NumberedLine>, ix: seq<nat>, m: nat, item: Item)
    requires BulletsAt(lines, ix) && m < |ix| && ItemFrom(lines, ix, m, item)
    ensures BulletUpTo(lines, ix[m], EndOf(lines, ix, m))
  {
    assert ix[m] in ix;
    var end := EndOf(lines, ix, m);
    if m + 1 < |ix| { assert end in ix; }
    forall i: nat | ix[m] < i < end ensures !IsBullet(lines[i].text) {
      NotBetween(ix, m, i);
    }
  }

  ghost predicate HasItem(items: seq<Item>, n: nat, key: Key) {
    exists m :: 0 <= m < |items| && items[m].startLine == n && items[m].lines == key
  }

  lemma {:induction false} BeginsItem(lines: seq<NumberedLine>, ix: seq<nat>, items: seq<Item>, start: nat, end: nat)
    requires BulletsAt(lines, ix) && ItemsFrom(lines, ix, items) && BulletUpTo(lines, start, end)
    ensures HasItem(items, lines[start].lineNumber, TrimBlank(Texts(lines[start..end])))
  {
    assert start in ix;
    var m :| 0 <= m < |ix| && ix[m] == start;
    assert ItemFrom(lines, ix, m, items[m]);
    ItemEndsAt(lines, ix, m, items[m]);
    SameEnd(lines, start, end, EndOf(lines, ix, m));
  }

  lemma {:induction false} ItemBegins(lines: seq<NumberedLine>, ix: seq<nat>, items: seq<Item>, m: nat)
    requires BulletsAt(lines, ix) && ItemsFrom(lines, ix, items) && m < |items|
    ensures ItemAt(lines, items[m].startLine, items[m].lines)
  {
    assert ItemFrom(lines, ix, m, items[m]);
    ItemEndsAt(lines, ix, m, items[m]);
  }

  /** The items with a starting line and text are those that begin there. */
  lemma {:induction false} ItemsBegin(lines: seq<NumberedLine>, n: nat, key: Key)
    ensures ItemAt(lines, n, key) <==> HasItem(Items(lines), n, key)
  {
    var ix := ItemsAreFrom(lines);
    if ItemAt(lines, n, key) {
      var start: nat, end: nat :| BulletUpTo(lines, start, end) && lines[start].lineNumber == n && key == TrimBlank(Texts(lines[start..end]));
      BeginsItem(lines, ix, Items(lines), start, end);
    }
    if HasItem(Items(lines), n, key) {
      var m :| 0 <= m < |Items(lines)| && Items(lines)[m].startLine == n && Items(lines)[m].lines == key;
      ItemBegins(lines, ix, Items(lines), m);
    }
  }

  lemma {:induction false} SameEnd(lines: seq<NumberedLine>, start: nat, a: nat, b: nat)
    requires BulletUpTo(lines, start, a) && BulletUpTo(lines, start, b)
    ensures a == b
  {
  }
}
