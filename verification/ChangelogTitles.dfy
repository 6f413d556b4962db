/** The subsections of a normalized section: one per title with content, in which order, and how their items are spaced. */
module ChangelogTitles {
  import opened ChangelogText
  import opened ChangelogDocument
  import opened ChangelogItems
  import opened ChangelogPromotion
  import opened ChangelogKept
  import opened StableSort

  predicate HasContent(sub: Subsection) {
    NonBlank(Texts(sub.lines)) != []
  }

  /** Position `i` is the first with its title that has content. */
  ghost predicate FirstWithContent(subs: seq<Subsection>, i: nat) {
    && i < |subs| && HasContent(subs[i])
    && forall q :: 0 <= q < i && subs[q].title == subs[i].title ==> !HasContent(subs[q])
  }

  /** `ix` are those positions among the first `n`, in order. */
  ghost predicate FirstContents(subs: seq<Subsection>, n: nat, ix: seq<nat>) {
    && (forall a, b :: 0 <= a < b < |ix| ==> ix[a] < ix[b])
    && (forall i: nat :: i in ix <==> i < n && FirstWithContent(subs, i))
  }

  /** The subsections have the titles of these positions. */
  ghost predicate TitledAs(result: seq<Subsection>, subs: seq<Subsection>, ix: seq<nat>) {
    |result| == |ix| && forall m :: 0 <= m < |ix| ==> ix[m] < |subs| && result[m].title == subs[ix[m]].title
  }

  lemma {:induction false} EmptyHasNoContent(texts: seq<string>)
    ensures Compact(TrimBlank(texts)) == [] <==> NonBlank(texts) == []
  {
    NonBlankTrimmed(texts);
    NonBlankCompact(TrimBlank(texts));
    CompactKeys(TrimBlank(texts));
    TrimBlankIsTrimmed(TrimBlank(texts));
    var t := TrimBlank(TrimBlank(texts));
    NonBlankTrimmed(TrimBlank(texts));
    if t != [] {
      assert NonBlank(t)[0] == t[0];
    }
  }

  lemma {:induction false} WithTextTitles(acc: seq<Subsection>, own: string, t: seq<string>)
    ensures var r, found := WithText(acc, own, t), exists m :: 0 <= m < |acc| && acc[m].title == own;
      && |r| == (if t != [] && !found then |acc| + 1 else |acc|)
      && (forall m :: 0 <= m < |r| ==> r[m].title == if m < |acc| then acc[m].title else own)
  {
  }

  /** A subsection with content adds its title unless it is there. */
  lemma {:induction false} AddNormalTitles(acc: seq<Subsection>, sub: Subsection, added: bool)
    requires added <==> HasContent(sub) && !exists m :: 0 <= m < |acc| && acc[m].title == sub.title
    ensures var r := AddNormal(acc, sub);
      && |r| == (if added then |acc| + 1 else |acc|)
      && (forall m :: 0 <= m < |r| ==> r[m].title == if m < |acc| then acc[m].title else sub.title)
  {
    var t := Compact(TrimBlank(Texts(sub.lines)));
    EmptyHasNoContent(Texts(sub.lines));
    AddNormalIs(acc, sub, t);
    WithTextTitles(acc, sub.title, t);
  }

  lemma {:induction false} NormalTitlesUpTo(subs: seq<Subsection>, n: nat) returns (ix: seq<nat>)
    requires n <= |subs|
    ensures FirstContents(subs, n, ix) && TitledAs(NormalSubs(subs[..n]), subs, ix)
    decreases n
  {
    if n == 0 {
      ix := [];
      assert subs[..0] == [];
    } else {
      var before := NormalTitlesUpTo(subs, n - 1);
      ix := TitlesNext(subs, n - 1, NormalSubs(subs[..n - 1]), before);
      NormalNext(subs[..n - 1], subs[n - 1]);
      OneMoreSub(subs, n);
    }
  }

  lemma {:induction false} TitlesNext(subs: seq<Subsection>, n: nat, acc: seq<Subsection>, before: seq<nat>) returns (ix: seq<nat>)
    requires n < |subs| && FirstContents(subs, n, before) && TitledAs(acc, subs, before)
    ensures FirstContents(subs, n + 1, ix) && TitledAs(AddNormal(acc, subs[n]), subs, ix)
  {
    var added := FirstWithContent(subs, n);
    IsFirst(subs, n, acc, before);
    AddNormalTitles(acc, subs[n], added);
    ix := if added then before + [n] else before;
    FirstsNext(subs, n, before);
    TitledNext(acc, AddNormal(acc, subs[n]), subs, before, n, added);
  }

  lemma {:induction false} TitledNext(acc: seq<Subsection>, r: seq<Subsection>, subs: seq<Subsection>, before: seq<nat>, n: nat, added: bool)
    requires n < |subs| && TitledAs(acc, subs, before) && |r| == (if added then |acc| + 1 else |acc|)
    requires forall m :: 0 <= m < |r| ==> r[m].title == if m < |acc| then acc[m].title else subs[n].title
    ensures TitledAs(r, subs, if added then before + [n] else before)
  {
  }

  lemma {:induction false} FirstsNext(subs: seq<Subsection>, n: nat, before: seq<nat>)
    requires n < |subs| && FirstContents(subs, n, before)
    ensures FirstContents(subs, n + 1, if FirstWithContent(subs, n) then before + [n] else before)
  {
    var ix := if FirstWithContent(subs, n) then before + [n] else before;
    forall a, b | 0 <= a < b < |ix| ensures ix[a] < ix[b] {
      assert before[a] in before;
    }
  }

  /** A title has been seen with content iff it is among those collected. */
  lemma {:induction false} IsFirst(subs: seq<Subsection>, n: nat, acc: seq<Subsection>, before: seq<nat>)
    requires n < |subs| && FirstContents(subs, n, before) && TitledAs(acc, subs, before)
    ensures FirstWithContent(subs, n) <==> HasContent(subs[n]) && !exists m :: 0 <= m < |acc| && acc[m].title == subs[n].title
  {
    if q :| 0 <= q < n && subs[q].title == subs[n].title && HasContent(subs[q]) {
      var f := EarliestWith(subs, q);
      assert f in before;
      var m :| 0 <= m < |before| && before[m] == f;
      assert acc[m].title == subs[n].title;
    }
    if m :| 0 <= m < |acc| && acc[m].title == subs[n].title {
      assert before[m] in before;
    }
  }

  lemma {:induction false} EarliestWith(subs: seq<Subsection>, q: nat) returns (f: nat)
    requires q < |subs| && HasContent(subs[q])
    ensures f <= q && subs[f].title == subs[q].title && FirstWithContent(subs, f)
    decreases q
  {
    if p: nat :| p < q && subs[p].title == subs[q].title && HasContent(subs[p]) {
      f := EarliestWith(subs, p);
    } else {
      f := q;
    }
  }

  /** Normalizing leaves one subsection per title that has content, in the order in which the titles first have any. */
  lemma {:induction false} NormalTitles(subs: seq<Subsection>) returns (ix: seq<nat>)
    ensures FirstContents(subs, |subs|, ix) && TitledAs(NormalSubs(subs), subs, ix)
  {
    ix := NormalTitlesUpTo(subs, |subs|);
    assert subs[..|subs|] == subs;
  }

  // ----- the order in Unreleased -----

  /** The place of a subsection of Unreleased; titles of one's own come last. */
  function Place(title: string): nat {
    if title == "Breaking Changes" then 0
    else if title == "Added" then 1
    else if title == "Changed" then 2
    else if title == "Fixed" then 3
    else if title == "Removed" then 4
    else 5
  }

  lemma {:induction false} RankIsPlace(sub: Subsection)
    ensures TitleRank(sub) == -(Place(sub.title) as int)
  {
    var t5: seq<string> := [];
    var t4, t3, t2, t1 := ["Removed"], ["Fixed", "Removed"], ["Changed", "Fixed", "Removed"], ["Added", "Changed", "Fixed", "Removed"];
    assert ORDERED_TITLES[1..] == t1 && t1[1..] == t2 && t2[1..] == t3 && t3[1..] == t4 && t4[1..] == t5;
    var x := sub.title;
    assert IndexOf(t5, x) == 0;
    assert IndexOf(t4, x) == if x == "Removed" then 0 else 1;
    assert IndexOf(t3, x) == if x == "Fixed" then 0 else 1 + IndexOf(t4, x);
    assert IndexOf(t2, x) == if x == "Changed" then 0 else 1 + IndexOf(t3, x);
    assert IndexOf(t1, x) == if x == "Added" then 0 else 1 + IndexOf(t2, x);
  }

  /** Those of one place, in order. */
  function AtPlace(subs: seq<Subsection>, k: nat): seq<Subsection> {
    if subs == [] then [] else (if Place(subs[0].title) == k then [subs[0]] else []) + AtPlace(subs[1..], k)
  }

  lemma {:induction false} AtPlaceIsKey(subs: seq<Subsection>, k: nat)
    ensures AtPlace(subs, k) == OfKey(subs, TitleRank, -(k as int))
  {
    if subs != [] {
      RankIsPlace(subs[0]);
      AtPlaceIsKey(subs[1..], k);
    }
  }

  /** The same subsections, ordered by their places, equal ones as they were. */
  ghost predicate ByPlace(r: seq<Subsection>, subs: seq<Subsection>) {
    && (forall i, j :: 0 <= i < j < |r| ==> Place(r[i].title) <= Place(r[j].title))
    && forall k :: AtPlace(r, k) == AtPlace(subs, k)
  }

  lemma {:induction false} SortedByPlace(r: seq<Subsection>, subs: seq<Subsection>)
    requires r == SortDesc(subs, TitleRank)
    ensures ByPlace(r, subs)
  {
    SortIsDescending(subs, TitleRank);
    forall i, j | 0 <= i < j < |r| ensures Place(r[i].title) <= Place(r[j].title) {
      RankIsPlace(r[i]);
      RankIsPlace(r[j]);
      assert TitleRank(r[i]) >= TitleRank(r[j]);
    }
    forall k ensures AtPlace(r, k) == AtPlace(subs, k) {
      AtPlaceIsKey(r, k);
      AtPlaceIsKey(subs, k);
      SortIsStable(subs, TitleRank, -(k as int));
    }
  }

  /** In Unreleased the subsections stand by their places; in a release they stay in the order of their titles' first content. */
  lemma {:induction false} NormalOrder(s: Section)
    ensures s.title == UNRELEASED ==> ByPlace(NormalSection(s).subsections, NormalSubs(s.subsections))
    ensures s.title != UNRELEASED ==> NormalSection(s).subsections == NormalSubs(s.subsections)
  {
    if s.title == UNRELEASED {
      SortedByPlace(NormalSection(s).subsections, NormalSubs(s.subsections));
    }
  }

  // ----- spacing -----

  /** No blank line stands directly above a bullet. */
  predicate Tight(texts: seq<string>) {
    forall i :: 0 < i < |texts| && IsBullet(texts[i]) ==> !IsBlank(texts[i - 1])
  }

  lemma {:induction false} FlattenTight(keys: seq<Key>)
    requires forall i :: 0 <= i < |keys| ==> IsKey(keys[i])
    ensures Tight(Flatten(keys))
    ensures Flatten(keys) != [] ==> IsBullet(Flatten(keys)[0])
    decreases |keys|
  {
    if keys != [] {
      var key, rest := keys[0], Flatten(keys[1..]);
      FlattenTight(keys[1..]);
      assert IsKey(key);
      var all := key + rest;
      forall j | 0 < j < |key| ensures !IsBullet(all[j]) {
        assert all[j] == key[1..][j - 1];
      }
      forall i | 0 < i < |all| && IsBullet(all[i]) ensures !IsBlank(all[i - 1]) {
        assert i > |key| ==> all[i] == rest[i - |key|] && all[i - 1] == rest[i - |key| - 1];
      }
    }
  }

  lemma {:induction false} NonBlankChunk(chunk: seq<string>, keys: seq<Key>, rest: seq<string>)
    requires NonBlank(Flatten(keys)) == NonBlank(rest)
    ensures NonBlank(Flatten([TrimBlank(chunk)] + keys)) == NonBlank(chunk + rest)
  {
    var all := [TrimBlank(chunk)] + keys;
    assert all[1..] == keys;
    NonBlankTrimmed(chunk);
    NonBlankConcat(TrimBlank(chunk), Flatten(keys));
    NonBlankConcat(chunk, rest);
  }

  lemma {:induction false} FirstKey(texts: seq<string>, k: nat)
    requires texts != [] && IsBullet(texts[0]) && k == NextBullet(texts, 1)
    ensures Keys(texts) == [TrimBlank(texts[..k])] + Keys(texts[k..])
  {
  }

  lemma {:induction false} NonBlankNext(texts: seq<string>, k: nat, rest: seq<string>)
    requires texts != [] && IsBullet(texts[0]) && k == NextBullet(texts, 1) && rest == texts[k..]
    requires NonBlank(Flatten(Keys(rest))) == NonBlank(rest)
    ensures NonBlank(Flatten(Keys(texts))) == NonBlank(texts)
  {
    FirstKey(texts, k);
    NonBlankChunk(texts[..k], Keys(rest), rest);
    assert texts == texts[..k] + rest;
  }

  lemma {:induction false} NonBlankKeys(texts: seq<string>)
    requires BulletFirst(texts)
    ensures NonBlank(Flatten(Keys(texts))) == NonBlank(texts)
    decreases |texts|
  {
    if texts != [] {
      var k := NextBullet(texts, 1);
      NonBlankKeys(texts[k..]);
      NonBlankNext(texts, k, texts[k..]);
    }
  }

  /** Text that begins with a bullet is compacted to its items, one directly below the other. */
  lemma {:induction false} CompactIsTight(texts: seq<string>)
    requires BulletFirst(TrimBlank(texts))
    ensures Compact(texts) == Flatten(Keys(texts)) && Tight(Compact(texts))
  {
    var t := TrimBlank(texts);
    NonBlankKeys(t);
    KeysTrimmed(texts);
    KeysAreKeys(t);
    FlattenTight(Keys(t));
    if t == [] {
      NoKeys(t);
    }
  }
}
