/** The renderer as it pushes and pops lines. */
module ChangelogRender {
  import opened Collections
  import opened ChangelogLines
  import opened ChangelogDocument

  /** Pushes the subsections that have any lines. */
  method PushSubs(out0: seq<string>, subs: seq<Subsection>) returns (out: seq<string>)
    ensures out == out0 + SubLines(PlainSubs(subs))
  {
    out := out0;
    for i := 0 to |subs|
      invariant SubsPushedUpTo(out0, out, subs, i)
    {
      var lines := TrimBlankLines(Texts(subs[i].lines));
      var pushed := if |lines| == 0 then [] else ["", "### " + subs[i].title, ""] + lines;
      SubPushNext(out0, out, subs, i, pushed);
      out := out + pushed;
    }
    assert subs[..|subs|] == subs;
  }

  /** `out` continues `out0` with the first `i` subsections. */
  ghost predicate SubsPushedUpTo(out0: seq<string>, out: seq<string>, subs: seq<Subsection>, i: nat)
    requires i <= |subs|
  {
    out == out0 + SubLines(PlainSubs(subs[..i]))
  }

  lemma {:induction false} SubPushNext(out0: seq<string>, out: seq<string>, subs: seq<Subsection>, i: nat, pushed: seq<string>)
    requires i < |subs| && SubsPushedUpTo(out0, out, subs, i)
    requires var lines := TrimBlank(Texts(subs[i].lines)); pushed == if lines == [] then [] else ["", "### " + subs[i].title, ""] + lines
    ensures SubsPushedUpTo(out0, out + pushed, subs, i + 1)
  {
    SliceNext(subs, i);
    SubPushOne(out0, subs[..i], subs[i], pushed);
  }

  lemma {:induction false} SubPushOne(out0: seq<string>, done: seq<Subsection>, s: Subsection, pushed: seq<string>)
    requires var lines := TrimBlank(Texts(s.lines)); pushed == if lines == [] then [] else ["", "### " + s.title, ""] + lines
    ensures out0 + SubLines(PlainSubs(done)) + pushed == out0 + SubLines(PlainSubs(done + [s]))
  {
    SubLinesAppend(done, s);
    Assoc(out0, SubLines(PlainSubs(done)), pushed);
  }

  method RenderSection(s: Section) returns (out: seq<string>)
    ensures out == [s.heading] + BodyLines(PlainSectionOf(s)) + [""]
  {
    out := [s.heading];
    var leading := TrimBlankLines(Texts(s.leading));
    if |leading| > 0 {
      out := out + ([""] + leading);
    }
    assert out == [s.heading] + LeadingLines(leading);
    out := PushSubs(out, s.subsections);
    Assoc([s.heading], LeadingLines(leading), SubLines(PlainSubs(s.subsections)));
    out := out + [""];
  }

  lemma {:induction false} SubLinesConcat(a: seq<PlainSub>, b: seq<PlainSub>)
    ensures SubLines(a + b) == SubLines(a) + SubLines(b)
    decreases |a|
  {
    if a == [] {
      assert a + b == b;
    } else {
      assert (a + b)[1..] == a[1..] + b;
      SubLinesConcat(a[1..], b);
    }
  }

  lemma {:induction false} PlainSubsConcat(a: seq<Subsection>, b: seq<Subsection>)
    ensures PlainSubs(a + b) == PlainSubs(a) + PlainSubs(b)
    decreases |a|
  {
    if a == [] {
      assert a + b == b;
    } else {
      var rest, head := a[1..], PlainHead(a[0]);
      calc {
        PlainSubs(a + b);
      == { assert a + b == [a[0]] + (rest + b); PlainSubsFirst(a[0], rest + b); }
        head + PlainSubs(rest + b);
      == { PlainSubsConcat(rest, b); }
        head + (PlainSubs(rest) + PlainSubs(b));
      == { Assoc(head, PlainSubs(rest), PlainSubs(b)); }
        head + PlainSubs(rest) + PlainSubs(b);
      == { assert a == [a[0]] + rest; PlainSubsFirst(a[0], rest); }
        PlainSubs(a) + PlainSubs(b);
      }
    }
  }

  lemma {:induction false} SubLinesAppend(a: seq<Subsection>, s: Subsection)
    ensures var lines := TrimBlank(Texts(s.lines));
      SubLines(PlainSubs(a + [s]))
      == SubLines(PlainSubs(a)) + if lines == [] then [] else ["", "### " + s.title, ""] + lines
  {
    PlainSubsConcat(a, [s]);
    SubLinesConcat(PlainSubs(a), PlainSubs([s]));
    OneSub(s);
  }

  lemma {:induction false} OneSub(s: Subsection)
    ensures var lines := TrimBlank(Texts(s.lines));
      SubLines(PlainSubs([s])) == if lines == [] then [] else ["", "### " + s.title, ""] + lines
  {
    var lines := TrimBlank(Texts(s.lines));
    assert [s][1..] == [];
    if lines != [] {
      assert PlainSubs([s]) == [PlainSub(s.title, lines)];
    }
  }

  // ----- the empty lines between releases -----

  /** Every release with an empty line after it. */
  function Pushed(sections: seq<PlainSection>): seq<string> {
    if sections == [] then [] else [sections[0].heading] + BodyLines(sections[0]) + [""] + Pushed(sections[1..])
  }

  lemma {:induction false} PushedConcat(a: seq<PlainSection>, b: seq<PlainSection>)
    ensures Pushed(a + b) == Pushed(a) + Pushed(b)
    decreases |a|
  {
    if a == [] {
      assert a + b == b;
    } else {
      assert (a + b)[1..] == a[1..] + b;
      PushedConcat(a[1..], b);
    }
  }

  lemma {:induction false} PlainSectionsConcat(a: seq<Section>, b: seq<Section>)
    ensures PlainSections(a + b) == PlainSections(a) + PlainSections(b)
    decreases |a|
  {
    if a == [] {
      assert a + b == b;
    } else {
      assert (a + b)[1..] == a[1..] + b;
      PlainSectionsConcat(a[1..], b);
    }
  }

  lemma {:induction false} PushedAppend(a: seq<Section>, s: Section)
    ensures Pushed(PlainSections(a + [s])) == Pushed(PlainSections(a)) + ([s.heading] + BodyLines(PlainSectionOf(s)) + [""])
  {
    PlainSectionsConcat(a, [s]);
    assert PlainSections([s]) == [PlainSectionOf(s)] by { assert [s][1..] == []; }
    PushedConcat(PlainSections(a), [PlainSectionOf(s)]);
    PushedOne(PlainSectionOf(s));
  }

  lemma {:induction false} PushedOne(s: PlainSection)
    ensures Pushed([s]) == [s.heading] + BodyLines(s) + [""]
  {
    assert [s][1..] == [];
  }

  /** Popping the final empty line leaves the releases with one between them. */
  lemma {:induction false} PushedIsReleases(sections: seq<PlainSection>)
    ensures Pushed(sections) == ReleaseLines(sections) + EmptyBefore(sections)
    decreases |sections|
  {
    if sections != [] {
      PushedIsReleases(sections[1..]);
      Shifted(sections[0].heading, BodyLines(sections[0]), EmptyBefore(sections[1..]), ReleaseLines(sections[1..]), "", sections[1..] == []);
    }
  }

  lemma {:induction false} Shifted<T>(h: T, body: seq<T>, gap: seq<T>, rest: seq<T>, e: T, last: bool)
    requires gap == if last then [] else [e]
    requires last ==> rest == []
    ensures [h] + body + [e] + (rest + gap) == [h] + (body + gap) + rest + [e]
  {
  }

  /** The last line of a trimmed document is not empty. */
  lemma {:induction false} ReleasesEndNonEmpty(sections: seq<Section>)
    requires sections != [] && forall i :: 0 <= i < |sections| ==> sections[i].heading != ""
    ensures var lines := ReleaseLines(PlainSections(sections)); lines != [] && lines[|lines| - 1] != ""
    decreases |sections|
  {
    if |sections| > 1 {
      ReleasesEndNonEmpty(sections[1..]);
    } else {
      BodyEndsNonEmpty(sections[0]);
    }
    var s, rest := PlainSectionOf(sections[0]), PlainSections(sections[1..]);
    ReleaseLinesCons(s, rest);
    LastOfThree([s.heading], BodyLines(s) + EmptyBefore(rest), ReleaseLines(rest));
  }

  lemma {:induction false} ReleaseLinesCons(s: PlainSection, rest: seq<PlainSection>)
    ensures ReleaseLines([s] + rest) == [s.heading] + (BodyLines(s) + EmptyBefore(rest)) + ReleaseLines(rest)
  {
    assert ([s] + rest)[1..] == rest;
  }

  lemma {:induction false} LastOfThree<T>(a: seq<T>, b: seq<T>, c: seq<T>)
    requires a != []
    ensures a + b + c != []
    ensures (a + b + c)[|a + b + c| - 1] == if c != [] then c[|c| - 1] else if b != [] then b[|b| - 1] else a[|a| - 1]
  {
  }

  lemma {:induction false} BodyEndsNonEmpty(s: Section)
    ensures var body := BodyLines(PlainSectionOf(s)); body == [] || body[|body| - 1] != ""
  {
    var leading := TrimBlank(Texts(s.leading));
    TrimBlankIsTrimmed(Texts(s.leading));
    SubsEndNonEmpty(s.subsections);
  }

  lemma {:induction false} SubsEndNonEmpty(subs: seq<Subsection>)
    ensures var lines := SubLines(PlainSubs(subs)); lines == [] || lines[|lines| - 1] != ""
    decreases |subs|
  {
    if subs != [] {
      SubsEndNonEmpty(subs[1..]);
      SubEndsNonEmpty(subs[0]);
      PlainSubsConcat([subs[0]], subs[1..]);
      assert [subs[0]] + subs[1..] == subs;
      SubLinesConcat(PlainSubs([subs[0]]), PlainSubs(subs[1..]));
    }
  }

  lemma {:induction false} SubEndsNonEmpty(sub: Subsection)
    ensures var lines := SubLines(PlainSubs([sub])); lines == [] || lines[|lines| - 1] != ""
  {
    TrimBlankIsTrimmed(Texts(sub.lines));
    OneSub(sub);
  }

  /** `out` continues `out0` with the first `i` releases. */
  ghost predicate PushedUpTo(out0: seq<string>, out: seq<string>, sections: seq<Section>, i: nat)
    requires i <= |sections|
  {
    out == out0 + Pushed(PlainSections(sections[..i]))
  }

  lemma {:induction false} PushNext(out0: seq<string>, out: seq<string>, sections: seq<Section>, i: nat, lines: seq<string>)
    requires i < |sections| && PushedUpTo(out0, out, sections, i)
    requires lines == [sections[i].heading] + BodyLines(PlainSectionOf(sections[i])) + [""]
    ensures PushedUpTo(out0, out + lines, sections, i + 1)
  {
    SliceNext(sections, i);
    PushOne(out0, sections[..i], sections[i], lines);
  }

  lemma {:induction false} PushOne(out0: seq<string>, done: seq<Section>, s: Section, lines: seq<string>)
    requires lines == [s.heading] + BodyLines(PlainSectionOf(s)) + [""]
    ensures out0 + Pushed(PlainSections(done)) + lines == out0 + Pushed(PlainSections(done + [s]))
  {
    PushedAppend(done, s);
    Assoc(out0, Pushed(PlainSections(done)), lines);
  }

  method PushReleases(out0: seq<string>, sections: seq<Section>) returns (out: seq<string>)
    ensures out == out0 + Pushed(PlainSections(sections))
  {
    out := out0;
    assert PushedUpTo(out0, out, sections, 0) by { assert sections[..0] == []; }
    for i := 0 to |sections|
      invariant PushedUpTo(out0, out, sections, i)
    {
      var lines := RenderSection(sections[i]);
      PushNext(out0, out, sections, i, lines);
      out := out + lines;
    }
    assert sections[..|sections|] == sections;
  }

  method WrittenLines(d: Document) returns (output: seq<string>)
    requires forall i :: 0 <= i < |d.sections| ==> d.sections[i].heading != ""
    ensures output == RenderedLines(PlainOf(d))
  {
    var prefix := TrimBlankLines(Texts(d.prefix));
    output := if |prefix| > 0 then prefix + [""] else [];
    output := PushReleases(output, d.sections);
    OutputEnds(d, prefix, output);
    output := PopEmpty(output, RenderedLines(PlainOf(d)));
  }

  method RenderChangelog(d: Document) returns (content: string)
    requires forall i :: 0 <= i < |d.sections| ==> d.sections[i].heading != ""
    ensures content == Rendered(d)
  {
    var output := WrittenLines(d);
    content := Join(output) + "\n";
  }

  lemma {:induction false} OutputEnds(d: Document, prefix: seq<string>, output: seq<string>)
    requires forall i :: 0 <= i < |d.sections| ==> d.sections[i].heading != ""
    requires prefix == TrimBlank(Texts(d.prefix))
    requires output == (if prefix == [] then [] else prefix + [""]) + Pushed(PlainSections(d.sections))
    ensures var lines := RenderedLines(PlainOf(d));
      && (lines == [] || lines[|lines| - 1] != "")
      && output == lines + if lines == [] then [] else [""]
  {
    var releases := PlainSections(d.sections);
    PushedIsReleases(releases);
    if d.sections != [] {
      ReleasesEndNonEmpty(d.sections);
      EndsWith(prefix, ReleaseLines(releases), output);
    } else {
      PrefixEnds(d, prefix);
    }
  }

  lemma {:induction false} PrefixEnds(d: Document, prefix: seq<string>)
    requires prefix == TrimBlank(Texts(d.prefix)) && d.sections == []
    ensures RenderedLines(PlainOf(d)) == prefix && (prefix == [] || prefix[|prefix| - 1] != "")
  {
    TrimBlankIsTrimmed(Texts(d.prefix));
    TrimmedEnds(prefix);
    OnlyPrefix(prefix);
    assert PlainOf(d) == Plain(prefix, []);
  }

  lemma {:induction false} TrimmedEnds(lines: seq<string>)
    requires IsTrimmed(lines)
    ensures lines == [] || lines[|lines| - 1] != ""
  {
  }

  lemma {:induction false} OnlyPrefix(prefix: seq<string>)
    ensures RenderedLines(Plain(prefix, [])) == prefix
  {
  }

  lemma {:induction false} EndsWith(prefix: seq<string>, releases: seq<string>, output: seq<string>)
    requires releases != [] && releases[|releases| - 1] != ""
    requires output == (if prefix == [] then [] else prefix + [""]) + (releases + [""])
    ensures var lines := prefix + (if prefix == [] then [] else [""]) + releases;
      lines[|lines| - 1] != "" && output == lines + [""]
  {
  }

  /** Pops empty lines off the end. */
  method PopEmpty(output0: seq<string>, ghost lines: seq<string>) returns (output: seq<string>)
    requires lines == [] || lines[|lines| - 1] != ""
    requires output0 == lines + if lines == [] then [] else [""]
    ensures output == lines
  {
    output := output0;
    while |output| > 0 && output[|output| - 1] == ""
      invariant output == lines || output == lines + [""]
      decreases |output|
    {
      output := output[..|output| - 1];
    }
  }
}
