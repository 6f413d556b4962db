/** Conservation of text: under which title every line that is not blank stands after normalizing. */
module ChangelogKept {
  import opened Collections
  import opened ChangelogText
  import opened ChangelogDocument
  import opened ChangelogItems
  import opened ChangelogPromotion
  import opened StableSort

  // ----- lines that are not blank -----

  lemma {:induction false} NonBlankConcat(a: seq<string>, b: seq<string>)
    ensures NonBlank(a + b) == NonBlank(a) + NonBlank(b)
  {
    var all := a + b;
    if a == [] {
      assert all == b;
    } else {
      var rest := a[1..];
      NonBlankConcat(rest, b);
      assert all[0] == a[0] && all[1..] == rest + b;
      var own := if IsBlank(a[0]) then [] else [a[0]];
      calc {
        NonBlank(all);
        own + NonBlank(rest + b);
        own + (NonBlank(rest) + NonBlank(b));
        { Assoc(own, NonBlank(rest), NonBlank(b)); }
        own + NonBlank(rest) + NonBlank(b);
        NonBlank(a) + NonBlank(b);
      }
    }
  }

  lemma {:induction false} NoneNonBlank(a: seq<string>)
    requires AllBlank(a)
    ensures NonBlank(a) == []
  {
    if a != [] {
      NoneNonBlank(a[1..]);
    }
  }

  lemma {:induction false} NonBlankFront(t: seq<string>)
    ensures NonBlank(TrimFront(t)) == NonBlank(t)
  {
    if t != [] && IsBlank(t[0]) {
      NonBlankFront(t[1..]);
    }
  }

  lemma {:induction false} NonBlankBack(t: seq<string>)
    ensures NonBlank(TrimBack(t)) == NonBlank(t)
  {
    if t != [] && IsBlank(t[|t| - 1]) {
      var n := |t| - 1;
      NonBlankBack(t[..n]);
      NonBlankConcat(t[..n], [t[n]]);
      assert t == t[..n] + [t[n]] && [t[n]][1..] == [];
    }
  }

  lemma {:induction false} NonBlankTrimmed(t: seq<string>)
    ensures NonBlank(TrimBlank(t)) == NonBlank(t)
  {
    NonBlankFront(t);
    NonBlankBack(TrimFront(t));
  }

  /** Appending text keeps all lines that are not blank, those of the target first. */
  lemma {:induction false} NonBlankAppended(target: seq<string>, source: seq<string>)
    ensures NonBlank(Appended(target, source)) == NonBlank(target) + NonBlank(source)
  {
    NonBlankTrimmed(target);
    NonBlankTrimmed(source);
    if TrimBlank(source) != [] {
      NonBlankJoined(TrimBlank(target), TrimBlank(source));
    }
  }

  lemma {:induction false} NonBlankJoined(e: seq<string>, s: seq<string>)
    requires s != []
    ensures NonBlank(Joined(e, s)) == NonBlank(e) + NonBlank(s)
  {
    if e != [] {
      var gap := if IsBullet(e[|e| - 1]) && IsBullet(s[0]) then [] else [""];
      assert AllBlank(gap);
      NoneNonBlank(gap);
      NonBlankConcat(e + gap, s);
      NonBlankConcat(e, gap);
    }
  }

  /** Compacting drops blank lines only. */
  lemma {:induction false} NonBlankCompact(t: seq<string>)
    ensures NonBlank(Compact(t)) == NonBlank(t)
  {
    NonBlankTrimmed(t);
  }

  // ----- lines under a title -----

  function OwnLines(sub: Subsection, title: string): seq<string> {
    if sub.title == title then NonBlank(Texts(sub.lines)) else []
  }

  /** The lines under a title that are not blank, in order. */
  function LinesUnder(subs: seq<Subsection>, title: string): seq<string> {
    if subs == [] then [] else OwnLines(subs[0], title) + LinesUnder(subs[1..], title)
  }

  lemma {:induction false} LinesUnderConcat(a: seq<Subsection>, b: seq<Subsection>, title: string)
    ensures LinesUnder(a + b, title) == LinesUnder(a, title) + LinesUnder(b, title)
    decreases |a|
  {
    var all := a + b;
    if a == [] {
      assert all == b;
    } else {
      var rest := a[1..];
      LinesUnderConcat(rest, b, title);
      assert all[0] == a[0] && all[1..] == rest + b;
      var own, later := OwnLines(a[0], title), LinesUnder(rest, title);
      calc {
        LinesUnder(all, title);
        own + LinesUnder(rest + b, title);
        own + (later + LinesUnder(b, title));
        { Assoc(own, later, LinesUnder(b, title)); }
        own + later + LinesUnder(b, title);
        LinesUnder(a, title) + LinesUnder(b, title);
      }
    }
  }

  lemma {:induction false} LinesUnderOne(sub: Subsection, title: string)
    ensures LinesUnder([sub], title) == OwnLines(sub, title)
  {
    assert [sub][1..] == [];
  }

  lemma {:induction false} NoLinesUnder(subs: seq<Subsection>, title: string)
    requires forall i :: 0 <= i < |subs| ==> subs[i].title != title
    ensures LinesUnder(subs, title) == []
  {
    if subs != [] {
      NoLinesUnder(subs[1..], title);
    }
  }

  lemma {:induction false} LinesInParts(before: seq<Subsection>, sub: Subsection, after: seq<Subsection>, title: string)
    ensures LinesUnder(before + [sub] + after, title) == LinesUnder(before, title) + OwnLines(sub, title) + LinesUnder(after, title)
  {
    LinesUnderConcat(before + [sub], after, title);
    LinesUnderConcat(before, [sub], title);
    LinesUnderOne(sub, title);
  }

  /** Appending to the last subsection of a title appends to the lines under it. */
  lemma {:induction false} AppendToLines(subs: seq<Subsection>, j: nat, source: seq<string>, title: string)
    requires j < |subs| && forall i :: j < i < |subs| ==> subs[i].title != subs[j].title
    ensures LinesUnder(AppendTo(subs, j, source), title)
      == LinesUnder(subs, title) + if title == subs[j].title then NonBlank(source) else []
  {
    var now := Subsection(subs[j].title, Synthetic(Appended(Texts(subs[j].lines), source)));
    var before, after, more := subs[..j], subs[j + 1..], if title == subs[j].title then NonBlank(source) else [];
    NonBlankAppended(Texts(subs[j].lines), source);
    assert OwnLines(now, title) == OwnLines(subs[j], title) + more;
    if title == subs[j].title {
      NoLinesUnder(after, title);
    }
    Around(subs, j, now);
    LinesInParts(before, now, after, title);
    LinesInParts(before, subs[j], after, title);
    EndsIn(LinesUnder(before, title), OwnLines(subs[j], title), LinesUnder(after, title), more);
  }

  lemma {:induction false} AddNormalLines(acc: seq<Subsection>, sub: Subsection, title: string)
    ensures LinesUnder(AddNormal(acc, sub), title) == LinesUnder(acc, title) + OwnLines(sub, title)
  {
    var texts := Texts(sub.lines);
    var t := Compact(TrimBlank(texts));
    NonBlankTrimmed(texts);
    NonBlankCompact(TrimBlank(texts));
    var j := LastWith(acc, sub.title);
    if t == [] {
    } else if j < |acc| {
      AppendToLines(acc, j, t, title);
    } else {
      var added := Subsection(sub.title, Synthetic(t));
      LinesUnderConcat(acc, [added], title);
      LinesUnderOne(added, title);
    }
  }

  lemma {:induction false} LinesUnderLast(rest: seq<Subsection>, last: Subsection, title: string)
    ensures LinesUnder(rest + [last], title) == LinesUnder(rest, title) + OwnLines(last, title)
  {
    LinesUnderConcat(rest, [last], title);
    LinesUnderOne(last, title);
  }

  lemma {:induction false} NormalLinesNext(rest: seq<Subsection>, last: Subsection, title: string)
    requires LinesUnder(NormalSubs(rest), title) == LinesUnder(rest, title)
    ensures LinesUnder(NormalSubs(rest + [last]), title) == LinesUnder(rest + [last], title)
  {
    NormalNext(rest, last);
    AddNormalLines(NormalSubs(rest), last, title);
    LinesUnderLast(rest, last, title);
  }

  lemma {:induction false} NormalLines(subs: seq<Subsection>, title: string)
    ensures LinesUnder(NormalSubs(subs), title) == LinesUnder(subs, title)
  {
    NormalLinesUpTo(subs, |subs|, title);
    assert subs[..|subs|] == subs;
  }

  lemma {:induction false} NormalLinesUpTo(subs: seq<Subsection>, n: nat, title: string)
    requires n <= |subs|
    ensures LinesUnder(NormalSubs(subs[..n]), title) == LinesUnder(subs[..n], title)
    decreases n
  {
    if n == 0 {
      assert subs[..0] == [];
    } else {
      NormalLinesUpTo(subs, n - 1, title);
      NormalLinesNext(subs[..n - 1], subs[n - 1], title);
      OneMoreSub(subs, n);
    }
  }

  lemma {:induction false} RankLines(subs: seq<Subsection>, title: string)
    ensures LinesUnder(OfKey(subs, TitleRank, TitleRank(Subsection(title, []))), title) == LinesUnder(subs, title)
    decreases |subs|
  {
    var k := TitleRank(Subsection(title, []));
    if subs != [] {
      RankLines(subs[1..], title);
      var rest := OfKey(subs[1..], TitleRank, k);
      if TitleRank(subs[0]) == k {
        LinesUnderConcat([subs[0]], rest, title);
        LinesUnderOne(subs[0], title);
      } else {
        assert OfKey(subs, TitleRank, k) == rest;
      }
    }
  }

  lemma {:induction false} SortedLines(subs: seq<Subsection>, title: string)
    ensures LinesUnder(SortDesc(subs, TitleRank), title) == LinesUnder(subs, title)
  {
    RankLines(subs, title);
    RankLines(SortDesc(subs, TitleRank), title);
    SortIsStable(subs, TitleRank, TitleRank(Subsection(title, [])));
  }

  /** Normalizing any section keeps its leading lines, and all lines under each title that are not blank, in order. */
  lemma {:induction false} NormalSectionLines(s: Section, title: string)
    ensures NonBlank(Texts(NormalSection(s).leading)) == NonBlank(Texts(s.leading))
    ensures LinesUnder(NormalSection(s).subsections, title) == LinesUnder(s.subsections, title)
  {
    NonBlankTrimmed(Texts(s.leading));
    NormalLines(s.subsections, title);
    SortedLines(NormalSubs(s.subsections), title);
  }
}
