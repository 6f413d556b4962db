/** Substituting on the text: edits at positions of the source, applied from the back, replace each edited span once. */
module InlineEdits {
  import opened Options
  import opened StableSort

  /** Replaces the span from `start` up to `end`; positions are those of the whole source file. */
  datatype Edit<T> = Edit(start: nat, end: nat, text: seq<T>)

  /** No span is empty, no edit is listed twice, and no two overlap. */
  ghost predicate Apart<T>(edits: seq<Edit<T>>) {
    && (forall e :: e in edits ==> e.start < e.end)
    && (forall d, e {:trigger Disjoint(d, e)} :: d in edits && e in edits ==> Disjoint(d, e))
    && forall i, j {:trigger Differ(edits, i, j)} :: 0 <= i < j < |edits| ==> Differ(edits, i, j)
  }

  ghost predicate Differ<T>(edits: seq<Edit<T>>, i: nat, j: nat)
    requires i < |edits| && j < |edits|
  {
    edits[i] != edits[j]
  }

  ghost predicate Disjoint<T>(d: Edit<T>, e: Edit<T>) {
    d == e || d.end <= e.start || e.end <= d.start
  }

  predicate Within<T>(e: Edit<T>, start: nat, end: nat) {
    start <= e.start && e.end <= end
  }

  predicate Begins<T>(e: Edit<T>, at: nat, end: nat) {
    at == e.start < e.end <= end
  }

  ghost function EditAt<T>(edits: seq<Edit<T>>, at: nat, end: nat): (e: Option<Edit<T>>)
    ensures e.Some? ==> e.value in edits && Begins(e.value, at, end)
    ensures e.None? ==> forall d :: d in edits ==> !Begins(d, at, end)
  {
    if e :| e in edits && Begins(e, at, end) then Some(e) else None
  }

  /** The text of `file` from `at` to `end`, read from left to right with each edited span replaced once. */
  ghost function Rewritten<T>(file: seq<T>, at: nat, end: nat, edits: seq<Edit<T>>): seq<T>
    requires at <= end <= |file|
    decreases end - at
  {
    if at == end then []
    else
      var here := EditAt(edits, at, end);
      if here.Some? then here.value.text + Rewritten(file, here.value.end, end, edits)
      else [file[at]] + Rewritten(file, at + 1, end, edits)
  }

  lemma {:induction false} EditHere<T>(file: seq<T>, end: nat, edits: seq<Edit<T>>, e: Edit<T>)
    requires Apart(edits) && e in edits && e.end <= end <= |file|
    ensures e.start < e.end
    ensures Rewritten(file, e.start, end, edits) == e.text + Rewritten(file, e.end, end, edits)
  {
    var here := EditAt(edits, e.start, end);
    assert Begins(e, e.start, end);
    assert Disjoint(e, here.value);
  }

  lemma {:induction false} EditFrom<T>(file: seq<T>, at: nat, next: nat, end: nat, edits: seq<Edit<T>>, text: seq<T>)
    requires Apart(edits) && Edit(at, next, text) in edits && at <= next <= end <= |file|
    ensures Rewritten(file, at, end, edits) == text + Rewritten(file, next, end, edits)
  {
    EditHere(file, end, edits, Edit(at, next, text));
  }

  lemma {:induction false} NothingHere<T>(file: seq<T>, at: nat, end: nat, edits: seq<Edit<T>>)
    requires at < end <= |file| && forall e :: e in edits ==> !Begins(e, at, end)
    ensures Rewritten(file, at, end, edits) == [file[at]] + Rewritten(file, at + 1, end, edits)
  {
  }

  /** Up to the next edit the text stays. */
  lemma {:induction false} Untouched<T>(file: seq<T>, at: nat, next: nat, end: nat, edits: seq<Edit<T>>)
    requires at <= next <= end <= |file|
    requires forall e :: e in edits && Within(e, at, end) ==> next <= e.start
    ensures Rewritten(file, at, end, edits) == file[at..next] + Rewritten(file, next, end, edits)
    decreases next - at
  {
    if at < next {
      var here := EditAt(edits, at, end);
      assert here.Some? ==> Within(here.value, at, end);
      Untouched(file, at + 1, next, end, edits);
      assert file[at..next] == [file[at]] + file[at + 1..next];
    }
  }

  /** No edit between `at` and `end` reaches across `middle`. */
  ghost predicate NoneAcross<T>(edits: seq<Edit<T>>, at: nat, middle: nat, end: nat) {
    forall e :: e in edits && Within(e, at, end) ==> e.end <= middle || middle <= e.start
  }

  lemma {:induction false} SameEdit<T>(edits: seq<Edit<T>>, at: nat, middle: nat, end: nat)
    requires Apart(edits) && at < middle <= end && NoneAcross(edits, at, middle, end)
    ensures EditAt(edits, at, end) == EditAt(edits, at, middle)
  {
    var d, e := EditAt(edits, at, end), EditAt(edits, at, middle);
    if d.Some? {
      assert Within(d.value, at, end) && Begins(d.value, at, middle);
    }
    if e.Some? {
      assert Begins(e.value, at, end) && Disjoint(d.value, e.value);
    }
  }

  /** A text can be rewritten part by part wherever no edit reaches across. */
  lemma {:induction false} RewrittenParts<T>(file: seq<T>, at: nat, middle: nat, end: nat, edits: seq<Edit<T>>)
    requires Apart(edits) && at <= middle <= end <= |file| && NoneAcross(edits, at, middle, end)
    ensures Rewritten(file, at, end, edits) == Rewritten(file, at, middle, edits) + Rewritten(file, middle, end, edits)
    decreases middle - at
  {
    if at < middle {
      SameEdit(edits, at, middle, end);
      var here := EditAt(edits, at, middle);
      RewrittenParts(file, if here.Some? then here.value.end else at + 1, middle, end, edits);
    }
  }

  // ----- the loop -----

  function Local<T>(edits: seq<Edit<T>>, start: nat, end: nat): seq<Edit<T>> {
    if edits == [] then []
    else (if Within(edits[0], start, end) then [edits[0]] else []) + Local(edits[1..], start, end)
  }

  lemma {:induction false} LocalIs<T>(edits: seq<Edit<T>>, start: nat, end: nat)
    ensures forall e :: multiset(Local(edits, start, end))[e] == if Within(e, start, end) then multiset(edits)[e] else 0
  {
    if edits != [] {
      LocalIs(edits[1..], start, end);
      assert edits == [edits[0]] + edits[1..];
    }
  }

  lemma {:induction false} OncePer<T>(edits: seq<Edit<T>>)
    requires forall i, j {:trigger Differ(edits, i, j)} :: 0 <= i < j < |edits| ==> Differ(edits, i, j)
    ensures forall e :: multiset(edits)[e] <= 1
  {
    if edits != [] {
      var rest := edits[1..];
      forall i, j | 0 <= i < j < |rest| ensures Differ(rest, i, j) {
        assert Differ(edits, i + 1, j + 1);
      }
      OncePer(rest);
      assert edits == [edits[0]] + rest;
      forall j | 0 <= j < |rest| ensures rest[j] != edits[0] {
        assert Differ(edits, 0, j + 1);
      }
    }
  }

  lemma {:induction false} Twice<T>(s: seq<T>, i: nat, j: nat)
    requires i < j < |s| && s[i] == s[j]
    ensures multiset(s)[s[i]] >= 2
  {
    assert s == s[..j] + s[j..] && s[..j][i] == s[i] && s[j..][0] == s[j];
  }

  function StartOf<T>(): Edit<T> -> int {
    (e: Edit<T>) => e.start
  }

  /** The edits of the node, the last one first. */
  ghost predicate Backwards<T>(local: seq<Edit<T>>, edits: seq<Edit<T>>, start: nat, end: nat) {
    && (forall i :: 0 <= i < |local| ==> local[i] in edits && Within(local[i], start, end))
    && (forall e :: e in edits && Within(e, start, end) ==> e in local)
    && forall i, j :: 0 <= i < j < |local| ==> local[j].end <= local[i].start
  }

  lemma {:induction false} SortedElements<T>(edits: seq<Edit<T>>, start: nat, end: nat, e: Edit<T>)
    ensures e in SortDesc(Local(edits, start, end), StartOf()) <==> e in edits && Within(e, start, end)
  {
    var found := Local(edits, start, end);
    SortIsDescending(found, StartOf());
    LocalIs(edits, start, end);
    assert e in SortDesc(found, StartOf()) <==> multiset(found)[e] > 0;
    assert e in edits <==> multiset(edits)[e] > 0;
  }

  lemma {:induction false} SortedOnce<T>(edits: seq<Edit<T>>, start: nat, end: nat, i: nat, j: nat)
    requires Apart(edits) && i < j < |SortDesc(Local(edits, start, end), StartOf())|
    ensures var local := SortDesc(Local(edits, start, end), StartOf());
      local[i] != local[j] && local[j].start <= local[i].start
  {
    var found := Local(edits, start, end);
    var local := SortDesc(found, StartOf());
    SortIsDescending(found, StartOf());
    LocalIs(edits, start, end);
    OncePer(edits);
    if local[i] == local[j] { Twice(local, i, j); }
    assert StartOf()(local[i]) >= StartOf()(local[j]);
  }

  lemma {:induction false} SortedApart<T>(edits: seq<Edit<T>>, start: nat, end: nat)
    requires Apart(edits)
    ensures Backwards(SortDesc(Local(edits, start, end), StartOf()), edits, start, end)
  {
    var local := SortDesc(Local(edits, start, end), StartOf());
    forall e ensures e in local <==> e in edits && Within(e, start, end) {
      SortedElements(edits, start, end, e);
    }
    forall i | 0 <= i < |local| ensures local[i] in edits && Within(local[i], start, end) {
      SortedElements(edits, start, end, local[i]);
    }
    forall i, j | 0 <= i < j < |local| ensures local[j].end <= local[i].start {
      SortedOnce(edits, start, end, i, j);
      assert local[i] in local && local[j] in local && Disjoint(local[i], local[j]);
    }
  }

  /** The text after the first `k` of these edits has been rewritten from here on. */
  function Cut<T>(local: seq<Edit<T>>, k: nat, end: nat): nat
    requires k <= |local|
  {
    if k == 0 then end else local[k - 1].start
  }

  /** Before the cut lie the edits still to be made, the next one closest to it. */
  lemma {:induction false} NextBeforeCut<T>(edits: seq<Edit<T>>, local: seq<Edit<T>>, k: nat, start: nat, end: nat)
    requires Apart(edits) && Backwards(local, edits, start, end) && k <= |local| && start <= end
    ensures start <= Cut(local, k, end) <= end
    ensures var from := if k < |local| then local[k].end else start;
      from <= Cut(local, k, end) && forall e :: e in edits && Within(e, from, end) && start <= from ==> Cut(local, k, end) <= e.start
  {
    forall e | e in edits && Within(e, if k < |local| then local[k].end else start, end) && Within(e, start, end)
      ensures Cut(local, k, end) <= e.start
    {
      var j: nat :| j < |local| && local[j] == e;
      assert j > 0 && k > 0 && j < k - 1 ==> local[k - 1].end <= local[j].start;
    }
  }

  lemma {:induction false} OneMore<T>(file: seq<T>, start: nat, end: nat, edits: seq<Edit<T>>, local: seq<Edit<T>>, k: nat)
    requires Apart(edits) && start <= end <= |file| && Backwards(local, edits, start, end) && k < |local|
    ensures start <= local[k].start < local[k].end <= Cut(local, k, end) <= end
    ensures var e, cut := local[k], Cut(local, k, end);
      Rewritten(file, e.start, end, edits) == e.text + (file[e.end..cut] + Rewritten(file, cut, end, edits))
  {
    EditHere(file, end, edits, local[k]);
    NextBeforeCut(edits, local, k, start, end);
    Untouched(file, local[k].end, Cut(local, k, end), end, edits);
  }

  /** After `k` edits the text from the cut on has been rewritten, and what lies before it has not been touched. */
  ghost predicate RewrittenSoFar<T>(file: seq<T>, start: nat, end: nat, edits: seq<Edit<T>>, local: seq<Edit<T>>, k: nat, text: seq<T>)
    requires start <= end <= |file| && k <= |local|
  {
    var cut := Cut(local, k, end);
    start <= cut <= end && text == file[start..cut] + Rewritten(file, cut, end, edits)
  }

  lemma {:induction false} NoneSoFar<T>(file: seq<T>, start: nat, end: nat, edits: seq<Edit<T>>, local: seq<Edit<T>>)
    requires start <= end <= |file|
    ensures RewrittenSoFar(file, start, end, edits, local, 0, file[start..end])
  {
  }

  /** One more edit, spliced into what the earlier ones have made. */
  lemma {:induction false} OneMoreSoFar<T>(file: seq<T>, start: nat, end: nat, edits: seq<Edit<T>>, local: seq<Edit<T>>, k: nat, text: seq<T>)
    requires Apart(edits) && start <= end <= |file| && Backwards(local, edits, start, end) && k < |local|
    requires RewrittenSoFar(file, start, end, edits, local, k, text)
    ensures start <= local[k].start <= local[k].end <= start + |text|
    ensures var e := local[k];
      RewrittenSoFar(file, start, end, edits, local, k + 1, text[..e.start - start] + e.text + text[e.end - start..])
  {
    var e := local[k];
    OneMore(file, start, end, edits, local, k);
    Spliced(file, start, e.start, e.end, Cut(local, k, end), e.text, Rewritten(file, Cut(local, k, end), end, edits));
  }

  lemma {:induction false} AllSoFar<T>(file: seq<T>, start: nat, end: nat, edits: seq<Edit<T>>, local: seq<Edit<T>>, text: seq<T>)
    requires Apart(edits) && start <= end <= |file| && Backwards(local, edits, start, end)
    requires RewrittenSoFar(file, start, end, edits, local, |local|, text)
    ensures text == Rewritten(file, start, end, edits)
  {
    NextBeforeCut(edits, local, |local|, start, end);
    Untouched(file, start, Cut(local, |local|, end), end, edits);
  }

  lemma {:induction false} Spliced<T>(file: seq<T>, start: nat, p: nat, q: nat, cut: nat, ins: seq<T>, rest: seq<T>)
    requires start <= p <= q <= cut <= |file|
    ensures var text := file[start..cut] + rest;
      text[..p - start] + ins + text[q - start..] == file[start..p] + (ins + (file[q..cut] + rest))
  {
    var text := file[start..cut] + rest;
    assert text[..p - start] == file[start..p] && text[q - start..] == file[q..cut] + rest;
  }

  /** Splicing the edits of a node into its text from the back rewrites it, in whatever order they were found. */
  method SubText<T>(file: seq<T>, start: nat, end: nat, edits: seq<Edit<T>>) returns (text: seq<T>)
    requires start <= end <= |file| && Apart(edits)
    ensures text == Rewritten(file, start, end, edits)
  {
    var local := SortDesc(Local(edits, start, end), StartOf());
    SortedApart(edits, start, end);
    text := file[start..end];
    NoneSoFar(file, start, end, edits, local);
    for k := 0 to |local|
      invariant RewrittenSoFar(file, start, end, edits, local, k, text)
    {
      OneMoreSoFar(file, start, end, edits, local, k, text);
      text := text[..local[k].start - start] + local[k].text + text[local[k].end - start..];
    }
    AllSoFar(file, start, end, edits, local, text);
  }
}
