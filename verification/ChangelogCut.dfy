/** Parsed items and taking some of them out of a subsection by line number. */
module ChangelogCut {
  import opened Collections
  import opened ChangelogText
  import opened ChangelogDocument
  import opened ChangelogItems

  datatype Item = Item(startLine: nat, endLine: nat, lines: Key)

  // Which items to take out.
  type Choice = Item -> bool

  function ItemOf(chunk: seq<NumberedLine>): Item
    requires chunk != []
  {
    Item(chunk[0].lineNumber, chunk[|chunk| - 1].lineNumber, TrimBlank(Texts(chunk)))
  }

  function Items(lines: seq<NumberedLine>): seq<Item>
    decreases |lines|
  {
    if lines == [] then []
    else if !IsBullet(lines[0].text) then Items(lines[1..])
    else
      var k := NextBullet(Texts(lines), 1);
      [ItemOf(lines[..k])] + Items(lines[k..])
  }

  function KeysOf(items: seq<Item>): seq<Key> {
    seq(|items|, i requires 0 <= i < |items| => items[i].lines)
  }

  lemma {:induction false} TextsConcat(a: seq<NumberedLine>, b: seq<NumberedLine>)
    ensures Texts(a + b) == Texts(a) + Texts(b)
  {
  }

  lemma {:induction false} ItemThenLines(chunk: seq<NumberedLine>, rest: seq<NumberedLine>)
    requires IsChunk(Texts(chunk)) && BulletFirst(Texts(rest))
    ensures chunk != [] && Items(chunk + rest) == [ItemOf(chunk)] + Items(rest)
  {
    assert |Texts(chunk)| == |chunk|;
    TextsConcat(chunk, rest);
    var all, k := Texts(chunk + rest), |chunk|;
    assert all[1..k] == Texts(chunk)[1..];
    assert k < |all| ==> all[k] == Texts(rest)[0];
    NextBulletIs(all, 1, k);
    assert (chunk + rest)[..k] == chunk && (chunk + rest)[k..] == rest;
    assert (chunk + rest)[0].text == Texts(chunk)[0];
  }

  lemma {:induction false} FirstChunkLines(lines: seq<NumberedLine>)
    requires lines != [] && IsBullet(lines[0].text)
    ensures var k := NextBullet(Texts(lines), 1);
      1 <= k && IsChunk(Texts(lines[..k])) && BulletFirst(Texts(lines[k..])) && lines == lines[..k] + lines[k..]
  {
    assert Texts(lines)[0] == lines[0].text;
    FirstChunk(Texts(lines));
    var k := NextBullet(Texts(lines), 1);
    assert Texts(lines[..k]) == Texts(lines)[..k] && Texts(lines[k..]) == Texts(lines)[k..];
  }

  /** Line numbers apart, the items are those of the text. */
  lemma {:induction false} ItemsKeys(lines: seq<NumberedLine>)
    ensures KeysOf(Items(lines)) == Keys(Texts(lines))
    decreases |lines|
  {
    if lines == [] {
    } else if !IsBullet(lines[0].text) {
      assert Texts(lines)[0] == lines[0].text && Texts(lines)[1..] == Texts(lines[1..]);
      ItemsKeys(lines[1..]);
    } else {
      FirstChunkLines(lines);
      var k := NextBullet(Texts(lines), 1);
      ItemsKeys(lines[k..]);
      ChunkKeys(lines[..k], lines[k..]);
    }
  }

  lemma {:induction false} KeysOfCons(first: Item, rest: seq<Item>)
    ensures KeysOf([first] + rest) == [first.lines] + KeysOf(rest)
  {
  }

  lemma {:induction false} ChunkKeys(chunk: seq<NumberedLine>, rest: seq<NumberedLine>)
    requires IsChunk(Texts(chunk)) && BulletFirst(Texts(rest)) && KeysOf(Items(rest)) == Keys(Texts(rest))
    ensures KeysOf(Items(chunk + rest)) == Keys(Texts(chunk + rest))
  {
    ItemThenLines(chunk, rest);
    TextsConcat(chunk, rest);
    ItemThen(Texts(chunk), Texts(rest));
    KeysOfCons(ItemOf(chunk), Items(rest));
  }

  method ParseItems(lines: seq<NumberedLine>) returns (items: seq<Item>)
    ensures items == Items(lines)
  {
    items := [];
    var index := 0;
    ItemsStart(lines);
    while index < |lines|
      invariant ItemsBefore(lines, index, items)
      decreases |lines| - index
    {
      var start := index;
      if !IsBullet(lines[start].text) {
        index := start + 1;
        ItemsSkip(lines, start, items);
      } else {
        index := SkipToBullet(lines, start + 1);
        ItemsNext(lines, start, index, items);
        items := items + [ItemOf(lines[start..index])];
      }
    }
    ItemsEnd(lines, items);
  }

  /** `items`, continued by those of the lines from `index` on, are all of them. */
  ghost predicate ItemsBefore(lines: seq<NumberedLine>, index: nat, items: seq<Item>) {
    index <= |lines| && items + Items(lines[index..]) == Items(lines)
  }

  lemma {:induction false} ItemsStart(lines: seq<NumberedLine>)
    ensures ItemsBefore(lines, 0, [])
  {
    assert lines[0..] == lines;
  }

  lemma {:induction false} ItemsSkip(lines: seq<NumberedLine>, index: nat, items: seq<Item>)
    requires index < |lines| && ItemsBefore(lines, index, items) && !IsBullet(lines[index].text)
    ensures ItemsBefore(lines, index + 1, items)
  {
    assert lines[index..][1..] == lines[index + 1..];
  }

  lemma {:induction false} ItemsNext(lines: seq<NumberedLine>, start: nat, end: nat, items: seq<Item>)
    requires start < end <= |lines| && ItemsBefore(lines, start, items) && IsBullet(lines[start].text)
    requires (end < |lines| ==> IsBullet(lines[end].text)) && forall i :: start < i < end ==> !IsBullet(lines[i].text)
    ensures ItemsBefore(lines, end, items + [ItemOf(lines[start..end])])
  {
    calc {
      items + [ItemOf(lines[start..end])] + Items(lines[end..]);
    == { AssocOne(items, ItemOf(lines[start..end]), Items(lines[end..])); }
      items + ([ItemOf(lines[start..end])] + Items(lines[end..]));
    == { NextItem(lines, start, end); }
      items + Items(lines[start..]);
    ==
      Items(lines);
    }
  }

  lemma {:induction false} ItemsEnd(lines: seq<NumberedLine>, items: seq<Item>)
    requires ItemsBefore(lines, |lines|, items)
    ensures items == Items(lines)
  {
    assert lines[|lines|..] == [];
  }

  method SkipToBullet(lines: seq<NumberedLine>, start: nat) returns (index: nat)
    requires start <= |lines|
    ensures start <= index <= |lines| && (index < |lines| ==> IsBullet(lines[index].text))
    ensures forall i :: start <= i < index ==> !IsBullet(lines[i].text)
  {
    index := start;
    while index < |lines| && !IsBullet(lines[index].text)
      invariant start <= index <= |lines| && forall i :: start <= i < index ==> !IsBullet(lines[i].text)
    {
      index := index + 1;
    }
  }

  lemma {:induction false} SliceIsChunk(lines: seq<NumberedLine>, start: nat, end: nat)
    requires start < end <= |lines| && IsBullet(lines[start].text)
    requires forall i :: start < i < end ==> !IsBullet(lines[i].text)
    ensures IsChunk(Texts(lines[start..end]))
  {
    var texts := Texts(lines[start..end]);
    assert texts[0] == lines[start].text;
    forall i | 0 <= i < |texts| - 1 ensures !IsBullet(texts[1..][i]) {
      assert texts[1..][i] == lines[start + 1 + i].text;
    }
  }

  lemma {:induction false} NextItem(lines: seq<NumberedLine>, start: nat, end: nat)
    requires start < end <= |lines| && IsBullet(lines[start].text)
    requires (end < |lines| ==> IsBullet(lines[end].text)) && forall i :: start < i < end ==> !IsBullet(lines[i].text)
    ensures Items(lines[start..]) == [ItemOf(lines[start..end])] + Items(lines[end..])
  {
    SliceIsChunk(lines, start, end);
    RestIsFirst(lines, end);
    ItemThenLines(lines[start..end], lines[end..]);
    Glue(lines, start, end);
  }

  lemma {:induction false} RestIsFirst(lines: seq<NumberedLine>, end: nat)
    requires end <= |lines| && (end < |lines| ==> IsBullet(lines[end].text))
    ensures BulletFirst(Texts(lines[end..]))
  {
  }

  lemma {:induction false} Glue<T>(s: seq<T>, start: nat, end: nat)
    requires start <= end <= |s|
    ensures s[start..] == s[start..end] + s[end..]
  {
  }

  // ----- taking items out -----

  function Chosen(items: seq<Item>, choice: Choice): seq<Item> {
    if items == [] then [] else (if choice(items[0]) then [items[0]] else []) + Chosen(items[1..], choice)
  }

  function Others(items: seq<Item>, choice: Choice): seq<Item> {
    if items == [] then [] else (if choice(items[0]) then [] else [items[0]]) + Others(items[1..], choice)
  }

  /** The lines without those of the chosen items. */
  function Cut(lines: seq<NumberedLine>, choice: Choice): seq<NumberedLine>
    decreases |lines|
  {
    if lines == [] then []
    else if !IsBullet(lines[0].text) then [lines[0]] + Cut(lines[1..], choice)
    else
      var k := NextBullet(Texts(lines), 1);
      (if choice(ItemOf(lines[..k])) then [] else lines[..k]) + Cut(lines[k..], choice)
  }

  lemma {:induction false} CutThen(chunk: seq<NumberedLine>, rest: seq<NumberedLine>, choice: Choice)
    requires IsChunk(Texts(chunk)) && BulletFirst(Texts(rest))
    ensures chunk != [] && Cut(chunk + rest, choice) == (if choice(ItemOf(chunk)) then [] else chunk) + Cut(rest, choice)
  {
    assert |Texts(chunk)| == |chunk|;
    TextsConcat(chunk, rest);
    var all, k := Texts(chunk + rest), |chunk|;
    assert all[1..k] == Texts(chunk)[1..];
    assert k < |all| ==> all[k] == Texts(rest)[0];
    NextBulletIs(all, 1, k);
    assert (chunk + rest)[..k] == chunk && (chunk + rest)[k..] == rest;
    assert (chunk + rest)[0].text == Texts(chunk)[0];
  }

  lemma {:induction false} CutFirst(lines: seq<NumberedLine>, choice: Choice)
    requires BulletFirst(Texts(lines))
    ensures BulletFirst(Texts(Cut(lines, choice)))
    decreases |lines|
  {
    if lines != [] {
      assert Texts(lines)[0] == lines[0].text;
      FirstChunkLines(lines);
      var k := NextBullet(Texts(lines), 1);
      CutFirst(lines[k..], choice);
      CutThen(lines[..k], lines[k..], choice);
      if !choice(ItemOf(lines[..k])) {
        assert Texts(Cut(lines, choice))[0] == lines[0].text;
      }
    }
  }

  /** What remains are exactly the other items, unchanged and in order. */
  lemma {:induction false} CutItems(lines: seq<NumberedLine>, choice: Choice)
    ensures Items(Cut(lines, choice)) == Others(Items(lines), choice)
    decreases |lines|
  {
    if lines == [] {
    } else if !IsBullet(lines[0].text) {
      CutItems(lines[1..], choice);
      assert ([lines[0]] + Cut(lines[1..], choice))[1..] == Cut(lines[1..], choice);
    } else {
      FirstChunkLines(lines);
      var k := NextBullet(Texts(lines), 1);
      CutItems(lines[k..], choice);
      CutChunk(lines[..k], lines[k..], choice);
    }
  }

  lemma {:induction false} CutChunk(chunk: seq<NumberedLine>, rest: seq<NumberedLine>, choice: Choice)
    requires IsChunk(Texts(chunk)) && BulletFirst(Texts(rest)) && Items(Cut(rest, choice)) == Others(Items(rest), choice)
    ensures Items(Cut(chunk + rest, choice)) == Others(Items(chunk + rest), choice)
  {
    ItemThenLines(chunk, rest);
    CutThen(chunk, rest, choice);
    CutFirst(rest, choice);
    if !choice(ItemOf(chunk)) {
      ItemThenLines(chunk, Cut(rest, choice));
    } else {
      assert [] + Cut(rest, choice) == Cut(rest, choice);
    }
    assert ([ItemOf(chunk)] + Items(rest))[1..] == Items(rest);
  }

  /** After the chosen items are out, choosing again finds nothing: a second visit is harmless. */
  lemma {:induction false} NothingChosenTwice(items: seq<Item>, choice: Choice)
    ensures Chosen(Others(items, choice), choice) == []
    decreases |items|
  {
    if items != [] {
      NothingChosenTwice(items[1..], choice);
      if !choice(items[0]) {
        assert ([items[0]] + Others(items[1..], choice))[1..] == Others(items[1..], choice);
      } else {
        assert Others(items, choice) == Others(items[1..], choice);
      }
    }
  }

  lemma {:induction false} CutNothing(lines: seq<NumberedLine>, choice: Choice)
    requires Chosen(Items(lines), choice) == []
    ensures Cut(lines, choice) == lines
    decreases |lines|
  {
    if lines == [] {
    } else if !IsBullet(lines[0].text) {
      CutNothing(lines[1..], choice);
      assert lines == [lines[0]] + lines[1..];
    } else {
      FirstChunkLines(lines);
      var k := NextBullet(Texts(lines), 1);
      var chunk, rest := lines[..k], lines[k..];
      ChosenThen(chunk, rest, choice);
      CutNothing(rest, choice);
      CutThen(chunk, rest, choice);
    }
  }

  lemma {:induction false} ChosenThen(chunk: seq<NumberedLine>, rest: seq<NumberedLine>, choice: Choice)
    requires IsChunk(Texts(chunk)) && BulletFirst(Texts(rest))
    ensures chunk != []
    ensures Chosen(Items(chunk + rest), choice) == (if choice(ItemOf(chunk)) then [ItemOf(chunk)] else []) + Chosen(Items(rest), choice)
  {
    ItemThenLines(chunk, rest);
    ChosenCons(ItemOf(chunk), Items(rest), choice);
  }

  lemma {:induction false} ChosenCons(first: Item, rest: seq<Item>, choice: Choice)
    ensures Chosen([first] + rest, choice) == (if choice(first) then [first] else []) + Chosen(rest, choice)
  {
    assert ([first] + rest)[1..] == rest;
  }

  // ----- by line number -----

  predicate Increasing(lines: seq<NumberedLine>) {
    forall i, j :: 0 <= i < j < |lines| ==> lines[i].lineNumber < lines[j].lineNumber
  }

  /** Every line number between the first and the last line of one of the items. */
  predicate InRanges(items: seq<Item>, n: nat) {
    exists i :: 0 <= i < |items| && items[i].startLine <= n <= items[i].endLine
  }

  function Filtered(lines: seq<NumberedLine>, items: seq<Item>): seq<NumberedLine> {
    if lines == [] then [] else (if InRanges(items, lines[0].lineNumber) then [] else [lines[0]]) + Filtered(lines[1..], items)
  }

  lemma {:induction false} FilteredConcat(a: seq<NumberedLine>, b: seq<NumberedLine>, items: seq<Item>)
    ensures Filtered(a + b, items) == Filtered(a, items) + Filtered(b, items)
    decreases |a|
  {
    if a == [] {
      assert a + b == b;
    } else {
      assert (a + b)[1..] == a[1..] + b;
      FilteredConcat(a[1..], b, items);
    }
  }

  lemma {:induction false} FilteredNone(lines: seq<NumberedLine>, items: seq<Item>)
    requires forall i :: 0 <= i < |lines| ==> !InRanges(items, lines[i].lineNumber)
    ensures Filtered(lines, items) == lines
    decreases |lines|
  {
    if lines != [] {
      FilteredNone(lines[1..], items);
      assert lines == [lines[0]] + lines[1..];
    }
  }

  lemma {:induction false} FilteredAll(lines: seq<NumberedLine>, items: seq<Item>)
    requires forall i :: 0 <= i < |lines| ==> InRanges(items, lines[i].lineNumber)
    ensures Filtered(lines, items) == []
    decreases |lines|
  {
    if lines != [] {
      FilteredAll(lines[1..], items);
    }
  }

  lemma {:induction false} FilteredSame(lines: seq<NumberedLine>, a: seq<Item>, b: seq<Item>)
    requires forall i :: 0 <= i < |lines| ==> (InRanges(a, lines[i].lineNumber) <==> InRanges(b, lines[i].lineNumber))
    ensures Filtered(lines, a) == Filtered(lines, b)
    decreases |lines|
  {
    if lines != [] {
      FilteredSame(lines[1..], a, b);
    }
  }

  /** The items lie within the line numbers of their lines. */
  ghost predicate Within(items: seq<Item>, lo: nat, hi: nat) {
    forall i :: 0 <= i < |items| ==> lo <= items[i].startLine <= items[i].endLine <= hi
  }

  lemma {:induction false} ItemsWithin(lines: seq<NumberedLine>)
    requires Increasing(lines)
    ensures lines == [] ==> Items(lines) == []
    ensures lines != [] ==> Within(Items(lines), lines[0].lineNumber, lines[|lines| - 1].lineNumber)
    decreases |lines|
  {
    if lines == [] {
    } else if !IsBullet(lines[0].text) {
      ItemsWithin(lines[1..]);
    } else {
      FirstChunkLines(lines);
      var k := NextBullet(Texts(lines), 1);
      ItemsWithin(lines[k..]);
      FirstItemWithin(lines, k);
    }
  }

  lemma {:induction false} FirstItemWithin(lines: seq<NumberedLine>, k: nat)
    requires Increasing(lines) && 1 <= k <= |lines|
    requires IsChunk(Texts(lines[..k])) && BulletFirst(Texts(lines[k..])) && lines == lines[..k] + lines[k..]
    requires var rest := lines[k..];
      if rest == [] then Items(rest) == [] else Within(Items(rest), rest[0].lineNumber, rest[|rest| - 1].lineNumber)
    ensures Within(Items(lines), lines[0].lineNumber, lines[|lines| - 1].lineNumber)
  {
    ItemThenLines(lines[..k], lines[k..]);
    WithinNext(lines, k, ItemOf(lines[..k]), Items(lines[k..]));
  }

  lemma {:induction false} WithinNext(lines: seq<NumberedLine>, k: nat, first: Item, items: seq<Item>)
    requires Increasing(lines) && 0 < k <= |lines|
    requires first.startLine == lines[0].lineNumber && first.endLine == lines[k - 1].lineNumber
    requires if k == |lines| then items == [] else Within(items, lines[k..][0].lineNumber, lines[k..][|lines| - k - 1].lineNumber)
    ensures Within([first] + items, lines[0].lineNumber, lines[|lines| - 1].lineNumber)
  {
    forall i | 0 <= i < |[first] + items|
      ensures lines[0].lineNumber <= ([first] + items)[i].startLine <= ([first] + items)[i].endLine <= lines[|lines| - 1].lineNumber
    {
      assert i > 0 ==> ([first] + items)[i] == items[i - 1];
    }
  }

  lemma {:induction false} ChosenAreItems(items: seq<Item>, choice: Choice)
    ensures forall i :: 0 <= i < |Chosen(items, choice)| ==> Chosen(items, choice)[i] in items && choice(Chosen(items, choice)[i])
    decreases |items|
  {
    if items != [] {
      ChosenAreItems(items[1..], choice);
    }
  }

  /** No chosen item of `lines` reaches a number outside them. */
  lemma {:induction false} RangesWithin(lines: seq<NumberedLine>, choice: Choice, n: nat)
    requires Increasing(lines) && (lines == [] || n < lines[0].lineNumber || n > lines[|lines| - 1].lineNumber)
    ensures !InRanges(Chosen(Items(lines), choice), n)
  {
    ItemsWithin(lines);
    ChosenAreItems(Items(lines), choice);
    var chosen := Chosen(Items(lines), choice);
    forall i | 0 <= i < |chosen| ensures !(chosen[i].startLine <= n <= chosen[i].endLine) {
      var j :| 0 <= j < |Items(lines)| && Items(lines)[j] == chosen[i];
    }
  }

  /** Removing the line numbers of the chosen items removes just these items. */
  lemma {:induction false} FilterIsCut(lines: seq<NumberedLine>, choice: Choice)
    requires Increasing(lines)
    ensures Filtered(lines, Chosen(Items(lines), choice)) == Cut(lines, choice)
    decreases |lines|
  {
    if lines == [] {
    } else if !IsBullet(lines[0].text) {
      FilterIsCut(lines[1..], choice);
      RangesWithin(lines[1..], choice, lines[0].lineNumber);
    } else {
      FirstChunkLines(lines);
      var k := NextBullet(Texts(lines), 1);
      FilterIsCut(lines[k..], choice);
      FilterChunk(lines[..k], lines[k..], choice);
    }
  }

  lemma {:induction false} FilterChunk(chunk: seq<NumberedLine>, rest: seq<NumberedLine>, choice: Choice)
    requires IsChunk(Texts(chunk)) && BulletFirst(Texts(rest)) && Increasing(chunk + rest)
    requires Filtered(rest, Chosen(Items(rest), choice)) == Cut(rest, choice)
    ensures Filtered(chunk + rest, Chosen(Items(chunk + rest), choice)) == Cut(chunk + rest, choice)
  {
    CutThen(chunk, rest, choice);
    ChosenThen(chunk, rest, choice);
    Increase(chunk, rest);
    forall i | 0 <= i < |chunk| ensures !InRanges(Chosen(Items(rest), choice), chunk[i].lineNumber) {
      RangesWithin(rest, choice, chunk[i].lineNumber);
    }
    FilterParts(chunk, rest, ItemOf(chunk), Chosen(Items(rest), choice), choice(ItemOf(chunk)));
  }

  lemma {:induction false} FilterParts(chunk: seq<NumberedLine>, rest: seq<NumberedLine>, first: Item, later: seq<Item>, taken: bool)
    requires chunk != [] && first.startLine == chunk[0].lineNumber && first.endLine == chunk[|chunk| - 1].lineNumber
    requires Increasing(chunk + rest)
    requires forall i :: 0 <= i < |chunk| ==> !InRanges(later, chunk[i].lineNumber)
    ensures Filtered(chunk + rest, (if taken then [first] else []) + later)
      == (if taken then [] else chunk) + Filtered(rest, later)
  {
    var chosen := (if taken then [first] else []) + later;
    Increase(chunk, rest);
    FilteredConcat(chunk, rest, chosen);
    forall i | 0 <= i < |chunk| ensures InRanges(chosen, chunk[i].lineNumber) <==> taken {
      FirstRange(first, later, chunk[i].lineNumber, taken);
    }
    forall i | 0 <= i < |rest| ensures InRanges(chosen, rest[i].lineNumber) <==> InRanges(later, rest[i].lineNumber) {
      FirstRange(first, later, rest[i].lineNumber, taken);
    }
    FilteredSame(rest, chosen, later);
    if taken {
      FilteredAll(chunk, chosen);
    } else {
      FilteredNone(chunk, chosen);
    }
  }

  lemma {:induction false} Increase(chunk: seq<NumberedLine>, rest: seq<NumberedLine>)
    requires Increasing(chunk + rest) && chunk != []
    ensures Increasing(rest)
    ensures forall i :: 0 <= i < |chunk| ==> chunk[0].lineNumber <= chunk[i].lineNumber <= chunk[|chunk| - 1].lineNumber
    ensures forall i, j :: 0 <= i < |chunk| && 0 <= j < |rest| ==> chunk[i].lineNumber < rest[j].lineNumber
  {
    var all := chunk + rest;
    assert forall i :: 0 <= i < |chunk| ==> all[i] == chunk[i];
    assert forall j :: 0 <= j < |rest| ==> all[|chunk| + j] == rest[j];
  }

  lemma {:induction false} FirstRange(first: Item, later: seq<Item>, n: nat, taken: bool)
    ensures InRanges((if taken then [first] else []) + later, n)
      <==> (taken && first.startLine <= n <= first.endLine) || InRanges(later, n)
  {
    var all := (if taken then [first] else []) + later;
    var off := if taken then 1 else 0;
    assert forall i :: 0 <= i < |later| ==> all[i + off] == later[i];
    if InRanges(all, n) {
      var i :| 0 <= i < |all| && all[i].startLine <= n <= all[i].endLine;
      assert i >= off ==> later[i - off] == all[i];
    }
  }
}
