/** Texts and their lines: splitting, joining and counting UTF-8 bytes. */
module ChangelogLines {
  /** Every line ending becomes a line feed. */
  function Unify(s: string): (r: string)
    ensures '\r' !in r
    ensures '\r' !in s ==> r == s
  {
    if s == [] then []
    else if s[0] == '\r' then "\n" + Unify(if |s| > 1 && s[1] == '\n' then s[2..] else s[1..])
    else [s[0]] + Unify(s[1..])
  }

  predicate IsEnding(e: string) {
    e == "\n" || e == "\r\n" || e == "\r"
  }

  /** `e` stands between these texts as a line ending of its own. */
  predicate EndsLine(a: string, e: string, b: string) {
    && IsEnding(e)
    && (a != [] && a[|a| - 1] == '\r' ==> e != "\n")
    && (b != [] && b[0] == '\n' ==> e != "\r")
  }

  /** How much of the text its first unified character stands for. */
  function FirstLength(s: string): (n: nat)
    requires s != []
    ensures 1 <= n <= |s|
  {
    if s[0] == '\r' && |s| > 1 && s[1] == '\n' then 2 else 1
  }

  lemma {:induction false} UnifyFirst(s: string, n: nat)
    requires s != [] && n == FirstLength(s)
    ensures Unify(s) == (if s[0] == '\r' then "\n" else [s[0]]) + Unify(s[n..])
  {
  }

  lemma {:induction false} Between(first: string, rest: string, e: string, b: string)
    ensures first + (rest + e + b) == (first + rest) + e + b
  {
  }

  /** Whatever ends a line becomes one line feed, and the text on both sides is unified by itself. */
  lemma {:induction false} UnifyEnding(a: string, e: string, b: string)
    requires EndsLine(a, e, b)
    ensures Unify(a + e + b) == Unify(a) + "\n" + Unify(b)
    decreases |a|
  {
    var all := a + e + b;
    if a == [] {
      assert all == e + b && all[|e|..] == b;
      UnifyFirst(all, |e|);
    } else {
      var n := FirstLength(a);
      var rest, first := a[n..], if a[0] == '\r' then "\n" else [a[0]];
      assert FirstLength(all) == n && all[0] == a[0] && all[n..] == rest + e + b;
      UnifyFirst(a, n);
      UnifyFirst(all, n);
      UnifyEnding(rest, e, b);
      Between(first, Unify(rest), "\n", Unify(b));
    }
  }

  /** `split("\n")` */
  function SplitOn(s: string): (lines: seq<string>)
    ensures lines != []
    ensures forall i :: 0 <= i < |lines| ==> '\n' !in lines[i]
  {
    if s == [] then [[]]
    else
      var rest := SplitOn(s[1..]);
      if s[0] == '\n' then [[]] + rest
      else
        assert '\n' !in [s[0]] + rest[0];
        [[s[0]] + rest[0]] + rest[1..]
  }

  /** `join("\n")` */
  function Join(lines: seq<string>): string {
    if lines == [] then [] else if |lines| == 1 then lines[0] else lines[0] + "\n" + Join(lines[1..])
  }

  function SplitContent(content: string): seq<string> {
    var s := Unify(content);
    if s != [] && s[|s| - 1] == '\n' then SplitOn(s[..|s| - 1]) else SplitOn(s)
  }

  predicate IsLine(line: string) {
    '\n' !in line && '\r' !in line
  }

  predicate AreLines(lines: seq<string>) {
    forall i :: 0 <= i < |lines| ==> IsLine(lines[i])
  }

  lemma {:induction false} SplitOnLine(line: string)
    requires '\n' !in line
    ensures SplitOn(line) == [line]
    decreases |line|
  {
    if line != [] {
      SplitOnLine(line[1..]);
      assert line == [line[0]] + line[1..];
    }
  }

  lemma {:induction false} SplitOnFirst(line: string, rest: string)
    requires '\n' !in line
    ensures SplitOn(line + "\n" + rest) == [line] + SplitOn(rest)
    decreases |line|
  {
    if line == [] {
      assert (line + "\n" + rest)[1..] == rest;
    } else {
      SplitOnFirst(line[1..], rest);
      assert (line + "\n" + rest)[1..] == line[1..] + "\n" + rest;
      assert line == [line[0]] + line[1..];
      assert ([line[1..]] + SplitOn(rest))[1..] == SplitOn(rest);
    }
  }

  lemma {:induction false} SplitJoin(lines: seq<string>)
    requires lines != [] && AreLines(lines)
    ensures SplitOn(Join(lines)) == lines
    decreases |lines|
  {
    if |lines| == 1 {
      SplitOnLine(lines[0]);
    } else {
      SplitJoin(lines[1..]);
      SplitOnFirst(lines[0], Join(lines[1..]));
    }
  }

  lemma {:induction false} NoReturns(lines: seq<string>)
    requires AreLines(lines)
    ensures '\r' !in Join(lines)
    decreases |lines|
  {
    if |lines| > 1 {
      NoReturns(lines[1..]);
    }
  }

  /** Lines written out with a final line feed are read back as they were. */
  lemma {:induction false} SplitWritten(lines: seq<string>)
    requires lines != [] && AreLines(lines)
    ensures SplitContent(Join(lines) + "\n") == lines
  {
    NoReturns(lines);
    var s := Join(lines) + "\n";
    assert '\r' !in s;
    assert s[..|s| - 1] == Join(lines);
    SplitJoin(lines);
  }

  lemma {:induction false} SplitHasNoReturns(s: string)
    requires '\r' !in s
    ensures AreLines(SplitOn(s))
    decreases |s|
  {
    if s != [] {
      SplitHasNoReturns(s[1..]);
      var rest := SplitOn(s[1..]);
      assert IsLine(rest[0]);
      assert s[0] != '\n' ==> IsLine([s[0]] + rest[0]);
    }
  }

  lemma {:induction false} SplitContentLines(content: string)
    ensures SplitContent(content) != [] && AreLines(SplitContent(content))
  {
    var s := Unify(content);
    SplitHasNoReturns(s);
    if s != [] {
      assert '\r' !in s[..|s| - 1];
      SplitHasNoReturns(s[..|s| - 1]);
    }
  }

  // ----- bytes -----

  function Utf8(c: char): nat {
    var n := c as int;
    if n < 0x80 then 1 else if n < 0x800 then 2 else if n < 0x1_0000 then 3 else 4
  }

  function ByteLength(s: string): nat {
    if s == [] then 0 else ByteLength(s[..|s| - 1]) + Utf8(s[|s| - 1])
  }

  lemma {:induction false} ByteConcat(a: string, b: string)
    ensures ByteLength(a + b) == ByteLength(a) + ByteLength(b)
    decreases |b|
  {
    if b == [] {
      assert a + b == a;
    } else {
      ByteConcat(a, b[..|b| - 1]);
      assert (a + b)[..|a + b| - 1] == a + b[..|b| - 1];
    }
  }

  /** The bytes of these lines, each with its line feed. */
  function LineBytes(lines: seq<string>): nat {
    if lines == [] then 0 else LineBytes(lines[..|lines| - 1]) + ByteLength(lines[|lines| - 1]) + 1
  }

  lemma {:induction false} JoinAppend(lines: seq<string>, last: string)
    requires lines != []
    ensures Join(lines + [last]) == Join(lines) + "\n" + last
    decreases |lines|
  {
    if |lines| == 1 {
      assert (lines + [last])[1..] == [last];
    } else {
      JoinAppend(lines[1..], last);
      assert (lines + [last])[1..] == lines[1..] + [last];
    }
  }

  lemma {:induction false} WrittenBytes(lines: seq<string>)
    requires lines != []
    ensures ByteLength(Join(lines) + "\n") == LineBytes(lines)
    decreases |lines|
  {
    var n := |lines| - 1;
    assert ByteLength("\n") == 1 by { assert ByteLength("\n"[..0]) == 0; }
    ByteConcat(Join(lines), "\n");
    if n == 0 {
      assert lines[..0] == [];
    } else {
      WrittenBytes(lines[..n]);
      JoinAppend(lines[..n], lines[n]);
      assert lines == lines[..n] + [lines[n]];
      ByteConcat(Join(lines[..n]) + "\n", lines[n]);
    }
  }
}
